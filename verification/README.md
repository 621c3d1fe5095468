# Academic planning backend: verified models

These Dafny modules model the deterministic core of a university academic-planning backend and prove
properties of it. The original is Python (`apps/api/app/...`) over PostgreSQL (`supabase/migrations/...`).

| file | what it models |
|---|---|
| `OutboxProtocol.dfy` | the decision-trace outbox as a transition system: leased outbox rows, an append-only ledger with unique identities, any number of workers, crashes at every step, lost requests and responses, expired leases, foreign appends |
| `OutboxSettlement.dfy` | what each call of a worker does to the columns of its event's row, and what its reported status tells about its settlement call |
| `OutboxProcessor.dfy` | the worker as imperative code (`process_event`, `process_batch`) against that shared state, proved to be one of the workers of the transition system |
| `OutboxFailure.dfy` | how an event whose entry is in the ledger can fail permanently, and when the attempt limit is passed |
| `OutboxMapper.dfy`, `OutboxRecovery.dfy` | how a claimed submission becomes its ledger entry, and what happens when its worker died between append and completion |
| `CanonicalLedger.dfy` | canonical entries, payload, hash, supersession chains |
| `LedgerStorage.dfy` | writing an entry to the ledger tables and reading it back |
| `DelayDirect.dfy` | the first pass of the delay analysis, which courses depend on the target directly, on attempts, groups and credits |
| `DelayConsequence.dfy` | the worklist over AND-of-OR prerequisites that finds what a delayed course blocks |
| `DelayDepth.dfy`, `DelaySafety.dfy` | its reported depth against the rank over all derivations, and exactly when its report is safe over whole runs |
| `ChangeImpact.dfy`, `PrerequisiteChange.dfy` | the bounded downstream search and the proposed catalog edit |
| `AcademicRules.dfy`, `AcademicDecisions.dfy` | the prerequisite catalog, the eligibility evaluator, the option-to-course graph; what the evaluator decides, on attempts, groups and credits |
| `CreditTimeline.dfy`, `CreditComparison.dfy` | the greedy credit schedule and the choice among its variants |
| `ComputeLimiter.dfy` | the admission protocol whose slot outlives its caller |
| `ReadinessTieBreak.dfy` | readiness as a tie-break over the baseline ranking |
| `RateLimiter.dfy` | the sliding-window login limiter |
| `Ordering.dfy`, `Text.dfy`, `Wrappers.dfy` | orders, sorting and canonical lists; `strip` and `btrim`; optional values |

Code that changes state step by step is imperative here as well (methods with loops, classes for the
limiters, the worker and its database), each proved against a specification function or a transition
relation; the theorems are then about those. A run of a transition system is a sequence of labelled steps,
each enabled when it is taken (`Legal`, `After`), so a statement about every run is a statement about every
interleaving. Where the imperative code waits, everything else may happen: an arbitrary schedule of steps of
the others.

SHA-256 over canonical JSON is a function parameter of which only the shape of its result is known, so
results that rest on the hash end in "or here are two different payloads with the same digest". Decimal
amounts and clock readings are reals, timestamps whole microseconds, raised exceptions result values.

Where code and documentation disagree, the code is followed:

- The login limiter announces a `retry_after`; waiting exactly that long is not always enough
  (`RateLimiter.RetryAfterIsOneSecondShort`).
- The delay analysis calls its depth a minimum dependency depth. It lies between the graph distance and
  the rank over all AND-of-OR derivations, and is the rank exactly when every reported course has a ready
  group whose other options were all reached earlier (`DelayDepth.DepthIsRankExactly`); a course can be
  reported above its rank (`DelayDepth.ReportedBelowRank`).
- The delay closure follows corequisite groups while the evaluator only blocks on prerequisite groups, so a
  course can be reported as affected that is eligible today (`DelayConsequence.CorequisiteOverclaims`); the
  report is safe exactly when nothing reported is eligible after one exhausted run
  (`DelaySafety.DelaySafetyExactly`). Groups that only the target can meet are not followed, so a blocked
  course can go unreported (`DelayConsequence.LeftOutExactly`, `DelaySafety.SilentlyBlocked`); nothing does
  exactly when `DelaySafety.ReportCompleteExactly` says so.
- A prerequisite change is reported with a comparison for every downstream course, but only the target's own
  comparison can differ (`PrerequisiteChange.OnlyTargetEligibilityChanges`).
- The storage guard accepts an optional text that is present but empty, the database stores it as null, and
  the entry can then never be loaded again (`LedgerStorage.StorageRoundTrip`). A submission's progress state
  reference comes from a column that cannot hold a blank text
  (supabase/migrations/20260922134625_add_mock_registration_persistence_security.sql:64-66), so the failing
  case of `OutboxMapper.MappedReloads` needs a projection that did not come from that table.
- Retries are described as bounded; the bound is applied only when a worker releases its claim, and is
  passed exactly when a claim takes an event over from a worker that has used the attempts up
  (`OutboxFailure.LimitIsPassedExactly`, `OutboxFailure.CrashesEscapeTheAttemptLimit`).
- PERMANENT_FAILURE does not mean that the entry is not in the ledger: it is exactly when one of its appends
  was executed (`OutboxFailure.LedgeredExactlyByExecution`). Which steps can lead to either kind of failure is
  stated by `OutboxFailure.StrandedOnlyByACause` and `OutboxFailure.UnledgeredOnlyByARefusal`.
- Only persistence errors are caught when a verified duplicate is completed; any other exception ends the
  whole batch (`OutboxProcessor.DecisionTraceOutboxProcessor.ProcessBatch`).

Check everything with `dafny verify dfyconfig.toml`.

## Model

| member | source | states |
|---|---|---|
| OutboxProtocol.StepKeepsInv | supabase/migrations/20260926120000_add_p8_outbox_processor_boundary.sql:39-305 | every step of every worker, database function and environment, refusals of entries and of backoffs included, keeps the protocol invariant, only extends the ledger and never touches a completed or permanently failed row |
| OutboxProtocol.CompletedMeansLedgered | apps/api/app/decision_trace_persistence/processor.py:100-321 | in every reachable state a COMPLETED event has exactly one ledger row under its id, written from a verified entry, and records that row's hash |
| OutboxProtocol.ReportedSuccessIsFinal | apps/api/app/decision_trace_persistence/processor.py:183-199 | a worker that reported COMPLETED or IDEMPOTENT_DUPLICATE is right for ever: in every continuation the event is completed with its entry's hash, and the ledger holds that very entry as written, or a row that reads back with its hash and its payload |
| OutboxProtocol.StaleWorkerChangesNoEvent | supabase/migrations/20260926120000_add_p8_outbox_processor_boundary.sql:165-181 | a step of a worker whose claim token is not the row's current one leaves every outbox row unchanged, and its completion call ends in COMPLETION_FAILED or in an escaping exception; when a settlement does take effect is stated by `OutboxSettlement.SettlementTakesEffectExactly` |
| OutboxProtocol.StaleForEver | supabase/migrations/20260926120000_add_p8_outbox_processor_boundary.sql:58-68 | once an event was claimed again or settled, an earlier claim of it stays stale in every continuation |
| OutboxProtocol.LeaseIsExclusive | supabase/migrations/20260926120000_add_p8_outbox_processor_boundary.sql:46-68 | as long as its lease has not run out, in every continuation a claimed row stays exactly as claimed until the worker that holds it settles it or is gone |
| OutboxProtocol.BackoffIsRespected | supabase/migrations/20260926120000_add_p8_outbox_processor_boundary.sql:240-250 | in every continuation a released event is left exactly as it is until its backoff has passed |
| OutboxProtocol.AttemptsCountClaims | supabase/migrations/20260926120000_add_p8_outbox_processor_boundary.sql:58-68 | over every run the attempt counter equals the number of claims of the event |
| OutboxProtocol.PendingIsBelowTheLimit | supabase/migrations/20260926120000_add_p8_outbox_processor_boundary.sql:228-250 | when all workers use one attempt limit, an event waits for another attempt only after fewer claims than that |
| OutboxProtocol.RetryIsIdempotent | apps/api/app/decision_trace_persistence/processor.py:168-210 | once the ledger holds an event's id, no later processing adds a row under it, and only a worker that had appended itself can still finish as COMPLETED: all others go through the verified duplicate or fail |
| OutboxProtocol.DifferingDuplicateNeverCompletes | apps/api/app/decision_trace_persistence/processor.py:181-227 | a worker whose entry differs in payload or in hash from what the ledger's row for that id reads back as never reaches the completion of a duplicate, and the completion of its own append only for the very row it wrote, by a digest collision |
| OutboxProtocol.EveryOpenEventCanComplete | supabase/migrations/20260926120000_add_p8_outbox_processor_boundary.sql:46-57 | from every reachable state an event that has not ended completes by one undisturbed pass after its lease or backoff ran out, if its entry passes the checks of adapter and database and the ledger has room for it or already holds it readably |
| OutboxProtocol.LoadedIsInLedger | apps/api/app/decision_trace_persistence/repository.py:99-148 | a loaded entry has the identity and hash of a ledger row |
| OutboxProtocol.UniqueHash | supabase/migrations/20260924163500_add_decision_trace_ledger.sql:7 | under unique identities an id has at most one hash in the ledger |
| OutboxSettlement.SettlementTakesEffectExactly | supabase/migrations/20260926120000_add_p8_outbox_processor_boundary.sql:165-305 | an answered settlement takes effect exactly when the row is being processed under the worker's own claim, lease run out or not, and a release only with a backoff of one second to one day; the row is then completed with the entry's hash, failed with the error, or pending for the backoff below the limit and failed at it, its attempts unchanged; otherwise no row has changed |
| OutboxSettlement.ClaimPossibleExactly | supabase/migrations/20260926120000_add_p8_outbox_processor_boundary.sql:46-68 | an event can be claimed exactly when it has not ended and no backoff or lease is still running; it is then processed under a new token, for the lease from now, with one attempt more |
| OutboxSettlement.AppendLeadsExactly | apps/api/app/decision_trace_persistence/processor.py:149-288 | an append leads to completion exactly when it is answered on a free identity, to the duplicate check exactly on a conflict or a taken identity, to a release exactly when the ledger is unavailable or the answer lost, and to a contract failure otherwise |
| OutboxSettlement.LoadLeadsExactly | apps/api/app/decision_trace_persistence/processor.py:169-227 | a duplicate check leads to completion exactly when it is answered with an entry of the same hash and payload, and to a mismatch failure otherwise |
| OutboxSettlement.StatusTellsTheSettlement | apps/api/app/decision_trace_persistence/processor.py:183-321 | over every run, a worker reports TRANSIENT_RETRY exactly when its settlement call was a release, PERMANENT_FAILURE exactly when it was a failure, a success exactly when it was an answered completion of a row held under its claim, and COMPLETION_FAILED, stale or not, exactly when a completion found another claim or no answer |
| OutboxFailure.StrandedOnlyByACause | apps/api/app/decision_trace_persistence/processor.py:169-288 | in every run, an event that failed permanently although its entry is in the ledger, or could have been appended, had on the way a foreign append or a claim that maps differently, an append answered unreadably or as a conflict on a free identity, a duplicate check that got no answer or could not read the row, or a release at the attempt limit; without these a ledgered event never fails permanently |
| OutboxFailure.LedgeredExactlyByExecution | supabase/migrations/20260924163500_add_decision_trace_ledger.sql:281-336 | in every run, so for a permanently failed event too, the ledger holds an entry under the identity if and only if the database executed some append under it, answered or not |
| OutboxFailure.UnledgeredOnlyByARefusal | apps/api/app/decision_trace_persistence/processor.py:106-288 | an event whose entry could be appended fails permanently without it only after a claim that maps differently, a conflict answered on a free identity or a release at the limit; without these every permanent failure strands a written entry |
| OutboxFailure.OwnDuplicateIsRecognised | apps/api/app/decision_trace_persistence/processor.py:171-185 | an answered duplicate check on a ledger that holds only the own entry accepts it, unless it cannot be read or the digest collides |
| OutboxFailure.UnreadableAnswerStrands | apps/api/app/decision_trace_persistence/repository.py:68-74 | a run from the start in which an unreadable append answer strands a written entry |
| OutboxFailure.UnansweredCheckStrands | apps/api/app/decision_trace_persistence/processor.py:178-227 | a run from the start in which a retry meets its own entry, its lookup gets no answer, and the event fails as a mismatch |
| OutboxFailure.LostResponsesStrand | apps/api/app/decision_trace_persistence/processor.py:229-248 | for every attempt limit, a run from the start in which every append is written, every response lost, and the event fails at the limit |
| OutboxFailure.LimitIsPassedExactly | supabase/migrations/20260926120000_add_p8_outbox_processor_boundary.sql:228-253 | with one attempt limit for all releases, an event is claimed more often than that if and only if some claim found it still being processed with the attempts used up |
| OutboxFailure.CrashesEscapeTheAttemptLimit | supabase/migrations/20260926120000_add_p8_outbox_processor_boundary.sql:46-68 | for every n there is a run in which an event is claimed n+1 times and still being processed |
| OutboxFailure.OnlyOwnRows | apps/api/app/decision_trace_persistence/processor.py:106-151 | when all claims of an event map to one entry and nobody else writes under its identity, that entry is all that any run leaves in the ledger under it |
| OutboxProcessor.DecisionTraceOutboxProcessor.ProcessEvent | apps/api/app/decision_trace_persistence/processor.py:100-321 | whatever everybody else does at each wait and whichever messages are lost, the code runs its claim from start to finish as a worker of the protocol and leaves its other claims alone; its reported status is the one its own settlement call leads to, made with the worker's backoff and attempt limit, and its result names id and hash exactly when it got as far as completing; an exception escapes it only after it reached the completion of a verified duplicate |
| OutboxProcessor.DecisionTraceOutboxProcessor.ProcessBatch | apps/api/app/decision_trace_persistence/processor.py:50-98 | the events it speaks of are exactly those the database granted to the call: one result per granted event, each with the status its settlement call led to; the three counters are the numbers of events whose claims were settled as a success, by a release, and by a failure or a failed completion; every event reported as completed is completed with the hash of the entry its projection maps to, which the ledger holds or reads back as its payload; when an exception ends the batch, the results so far stand and the later claims are untouched, and when the claim call is not answered all of them are |
| OutboxProcessor.Backend.ClaimEvents | apps/api/app/decision_trace_persistence/outbox_repository.py:50-85 | at most batch-size events, each under a token of its own and leased for the stated seconds from now; what is granted is exactly what is new in flight, and an answer lists all of it; arguments out of bounds change nothing |
| OutboxProcessor.Backend.Append | apps/api/app/decision_trace_persistence/repository.py:59-75 | each way the append call can end, refusals by the database's checks included, resumes the worker where the protocol says, in a state reached by legal steps |
| OutboxProcessor.Backend.LoadStudentEntry | apps/api/app/decision_trace_persistence/processor.py:171-179 | the stored entry as found, or nothing when the call failed |
| OutboxProcessor.Backend.SettleEvent | apps/api/app/decision_trace_persistence/outbox_repository.py:122-178 | complete, release and fail: the call is the step of the protocol with the given backoff and limit, so only the claim decides whether it takes effect; only the completion call's answer decides the reported status, and only its unexpected exception on the duplicate path ends the worker |
| OutboxProcessor.OthersStand | apps/api/app/decision_trace_persistence/processor.py:76-88 | while one event of a batch is processed, the results before it and the claims after it stand as they stood |
| OutboxMapper.MapsExactlyTheEligible | apps/api/app/decision_trace_persistence/p6_outbox_mapper.py:116-244 | the mapper succeeds exactly on projections that pass its gate; the two checks on its own result (hash, evidence order) never fire |
| OutboxMapper.MapsExactlyTheConsistent | apps/api/app/decision_trace_persistence/p6_outbox_mapper.py:126-169 | the gate, fact by fact: a submission is mapped if and only if it is a submitted VALID or REVIEW_REQUIRED revision of a student, the event and its snapshot repeat it, a replay artifact, if there is one, is intact and agrees with it, and no source version is blank |
| OutboxMapper.MappedFacts | apps/api/app/decision_trace_persistence/p6_outbox_mapper.py:171-236 | the mapped entry is VALIDATED exactly for VALID submissions and FLAGGED_REVIEW otherwise, exactly replayable and with the artifact's engine version exactly when there is an artifact, and its policy, actor, outcome reference, provenance, instant and empty fields are those of the revision |
| OutboxMapper.MappedTexts | apps/api/app/decision_trace_persistence/p6_outbox_mapper.py:203-236 | its source versions are exactly the stripped versions the revision names, its limitations the disclaimer and, without an artifact, the missing replay |
| OutboxMapper.MappedEvidence | apps/api/app/decision_trace_persistence/p6_outbox_mapper.py:175-202 | its references are those of the revision, with the identifier and version each stands for |
| OutboxMapper.MappedIdentity | apps/api/app/decision_trace_persistence/p6_outbox_mapper.py:203-232 | event, revision and ledger entry share one identity; the entry verifies, is normal, belongs to the owner and tenant and supersedes nothing; its other facts are stated by `OutboxMapper.MappedFacts` |
| OutboxMapper.EvidenceIsOrdered | apps/api/app/decision_trace_persistence/p6_outbox_mapper.py:175-202 | the canonical evidence of a submission is course set, revision, replay artifact if any, target period |
| OutboxMapper.MappedIsAppendable | apps/api/app/decision_trace_persistence/repository.py:341-378 | a mapped entry passes the append guard exactly when its progress state reference carries no surrounding whitespace |
| OutboxMapper.MappedIsAccepted | supabase/migrations/20260924163500_add_decision_trace_ledger.sql:36-106 | no check of the append function and no single-row constraint refuses a mapped entry, where the database's collation orders text by code point as Python does |
| OutboxMapper.MappedReloads | apps/api/app/decision_trace_persistence/repository.py:381-433 | an appended mapped entry loads back identical exactly when that reference is not the empty text |
| OutboxRecovery.OwnAppendIsRecognised | apps/api/app/decision_trace_persistence/processor.py:171-196 | a retry recognises its own earlier append exactly in that case, unless the digest collides |
| OutboxRecovery.InterruptedSubmissionRecovers | apps/api/app/decision_trace_persistence/processor.py:124-321 | after any run from the start in which the event's claims carry the submission and nobody else appends under its id, however its attempts died, an open event can still be completed with the one hash its projection maps to, provided its progress state reference carries no surrounding whitespace (an empty one only while the ledger lacks the entry) |
| OutboxRecovery.RunsLeaveItReconcilable | apps/api/app/decision_trace_persistence/processor.py:169-199 | after any such run the ledger lacks the entry or a retry will recognise it |
| OutboxRecovery.PaddedReferenceNeverCompletes | apps/api/app/decision_trace_persistence/repository.py:341-378 | a reference with surrounding whitespace keeps the event from ever being completed, in any such run |
| CanonicalLedger.NormalizeEvidenceReferences | apps/api/app/decision_trace/validation.py:24-30 | the first-occurrence loop and sort yield the canonical list of clean references, or refuse a blank one |
| CanonicalLedger.CreateCanonicalLedgerEntry | apps/api/app/decision_trace/validation.py:48-55 | the step-by-step construction is the specification function of the theorems below |
| CanonicalLedger.CreatesExactly | apps/api/app/decision_trace/validation.py:32-55 | a draft is refused exactly for one of the listed defects of its fields, lists and references |
| CanonicalLedger.VerdictsTell | apps/api/app/decision_trace/canonical.py:46-50 | each verdict of the hash check, missing, malformed, tampered or verified, exactly when the stored hash is empty, no 64 hex digits, another one, or the payload's |
| CanonicalLedger.EvidenceOrder | apps/api/app/decision_trace/validation.py:30 | evidence is ordered by source, identifier, version, locator and address, in this order |
| CanonicalLedger.MaterialityExactly | apps/api/app/decision_trace/registries.py:46-68 | which decisions must, may, and must not be ledgered |
| CanonicalLedger.CreatedEntriesVerify | apps/api/app/decision_trace/validation.py:48-55 | every created entry is normal, valid, verifies, keeps all facts and exactly the stripped texts and references it was given |
| CanonicalLedger.RecreationIsFixedPoint | apps/api/app/decision_trace/validation.py:48-55 | creating an entry again from its own fields returns it, hash included |
| CanonicalLedger.CreationIsCanonical | apps/api/app/decision_trace/validation.py:21-30 | two drafts give the identical entry and hash if and only if they have the same facts and the same stripped texts and references, whatever order, repetition and padding |
| CanonicalLedger.CleanReferencesHaveNoTies | apps/api/app/decision_trace/validation.py:30 | the sort key separates all clean references, although it renders an absent locator as empty |
| CanonicalLedger.PayloadDeterminesEntry | apps/api/app/decision_trace/canonical.py:25-36 | valid normal entries have equal payloads if and only if they are equal apart from the hash |
| CanonicalLedger.HashDeterminesEntry | apps/api/app/decision_trace/canonical.py:41-50 | two verified entries with one hash are one entry, or their payloads are a collision |
| CanonicalLedger.SupersedingExtendsChain | apps/api/app/decision_trace/validation.py:57-65 | a superseding entry has its predecessor's hash and identity as its previous ones and extends its chain, whatever else the caller changes |
| CanonicalLedger.HeadHashDeterminesHistory | apps/api/app/decision_trace/validation.py:57-65 | two chains with equal head hashes are equal entry by entry down to the root, or two of their payloads are a collision |
| Text.StripIgnoresPadding | apps/api/app/decision_trace/validation.py:13-15 | surrounding whitespace never survives normalisation |
| LedgerStorage.CollectEvidence | apps/api/app/decision_trace_persistence/repository.py:436-461 | the reading loop accepts exactly the contiguous readable rows of this entry |
| LedgerStorage.EvidenceReadExactly | apps/api/app/decision_trace_persistence/repository.py:436-461 | a response is read as given references if and only if it is exactly the rows written for them: positions 1..n, this entry, all readable |
| LedgerStorage.OnlyPrefixesAreRead | apps/api/app/decision_trace_persistence/repository.py:445-450 | of the rows written for one entry, any gap, reordering or repetition is refused; only a prefix is read |
| LedgerStorage.TruncatedEvidenceIsDetected | apps/api/app/decision_trace_persistence/repository.py:327-338 | a lost tail of evidence rows fails the hash check, unless the digest collides |
| LedgerStorage.StorageRoundTrip | apps/api/app/decision_trace_persistence/repository.py:314-433 | an accepted entry loads back as itself with its lists in canonical order if and only if no optional text is empty; otherwise it can never be loaded, unless the digest collides |
| LedgerStorage.LoadedIsWhole | apps/api/app/decision_trace_persistence/repository.py:99-148 | whatever loads is what the row and at most 1000 evidence rows hold, has no empty text in it, and carries the hash of its payload; a row without all of that is refused |
| LedgerStorage.DatabaseAddsExactly | supabase/migrations/20260924163500_add_decision_trace_ledger.sql:36-106 | for a normal entry the adapter is ready to append, the database's own checks amount to exactly three more conditions: a ledgered decision, a student exactly for individual subjects, a predecessor exactly with its hash |
| LedgerStorage.CreatedEntryRoundTrip | supabase/migrations/20260924163500_add_decision_trace_ledger.sql:273-330 | an entry the domain created comes back identical if and only if no optional text is empty |
| DelayConsequence.DirectImpacts | apps/api/app/decision_intelligence/delay.py:324-378 | the direct impacts are exactly the dependents that are eligible with the target passed and not eligible without it, in code order, and review is asked for exactly when some dependent cannot be decided; what that is for gated and ungated courses is stated by `DelayDirect.DirectExactly` and `DelayDirect.ReviewExactly` |
| DelayDirect.DirectExactly | apps/api/app/decision_intelligence/delay.py:324-378 | a course is a direct impact if and only if its rule lists the target and can be decided, its groups are met with the target, for a graduation project with at least 90 known credits, and without the target a prerequisite group is unmet or a project's credits fall below 90 |
| DelayDirect.ReviewExactly | apps/api/app/decision_intelligence/delay.py:339-359 | a course asks for review if and only if its rule lists the target and is unresolved or in conflict, makes no usable model (unless it is a project known to lack credits), or is a project met with the target whose credits are unknown |
| DelayDirect.ProjectIsDirect | apps/api/app/rules/evaluator.py:42-56 | a graduation project whose prerequisite is the target is a direct impact in a concrete catalog where it has the credits |
| DelayConsequence.TransitiveImpacts | apps/api/app/decision_intelligence/delay.py:381-413 | the worklist finds exactly the least closed set over target and direct courses, once each, with a simple chain of prerequisite edges from the target whose length is the depth plus one, sorted by depth and code; the parents in the order they are popped come in nondecreasing depth, each once, and for every ready group with an option besides the target the depth is at most one more than its latest such option's |
| DelayConsequence.ClosureUnique | apps/api/app/decision_intelligence/delay.py:385-412 | the set found does not depend on the order of the queue |
| DelayConsequence.PathReaches | apps/api/app/decision_intelligence/delay.py:406-411 | a reported depth is never below the graph distance from the target |
| DelayDepth.DepthAtMostRank | apps/api/app/decision_intelligence/delay.py:381-413 | a course is never reported deeper than its rank, the minimum over all AND-of-OR derivations |
| DelayDepth.DepthIsRankExactly | apps/api/app/decision_intelligence/delay.py:396-412 | all reported depths are ranks if and only if every reported course has a ready group whose other options were all reached at a smaller depth |
| DelayDepth.SingleAlternativesGiveRanks | apps/api/app/decision_intelligence/delay.py:396-412 | in a catalog whose groups offer at most one option besides the target, every reported depth is the rank |
| DelayDepth.ReportedBelowRank | apps/api/app/decision_intelligence/delay.py:396-412 | a concrete plan in which the worklist reports depth two for a course of rank three |
| DelayDepth.ShallowDirect | apps/api/app/decision_intelligence/delay.py:324-378 | in that plan the direct impact it starts from is the computed one |
| DelayConsequence.ClosureIsJustified | apps/api/app/decision_intelligence/delay.py:396-405 | every course found outside the base owes its place to one of its own groups |
| DelayConsequence.NoDirectNoTransitive | apps/api/app/decision_intelligence/delay.py:383-387 | without a direct impact nothing is found: groups only the target can meet do not propagate |
| DelayConsequence.BlockedTogether | apps/api/app/rules/evaluator.py:69-150 | while nothing of the avoided set is completed, no course of a set becomes eligible whose courses each wait for a prerequisite group within the set |
| DelayConsequence.DelayedCoursesStayBlocked | apps/api/app/decision_intelligence/delay.py:381-413 | in every legal run that completes neither the target nor a directly affected course, no course of the closure ever becomes eligible, if each owes its place to a prerequisite group |
| DelayConsequence.PrerequisiteCatalogsAreSafe | apps/api/app/decision_intelligence/delay.py:381-413 | that proviso holds for every student and delay in a catalog of prerequisite groups |
| DelaySafety.DelaySafetyExactly | apps/api/app/decision_intelligence/delay.py:381-413 | for any catalog, no course of the closure becomes eligible in any legal run that completes neither the target nor a direct course if and only if none is eligible after one exhausted run |
| DelaySafety.AttainableExactly | apps/api/app/rules/evaluator.py:35-150 | a course can become eligible in some legal run exactly when it is eligible after an exhausted one |
| DelaySafety.ExhaustedRunExists | apps/api/app/rules/evaluator.py:35-150 | an exhausted run exists for every catalog, student and set of courses to avoid |
| DelayConsequence.CorequisiteOverclaims | apps/api/app/decision_intelligence/delay.py:397-403 | a concrete catalog with a corequisite in which a reported course is eligible today |
| DelaySafety.CompanionDirect | apps/api/app/decision_intelligence/delay.py:324-378 | in that catalog the direct impact it starts from is the computed one |
| DelayConsequence.LeftOutExactly | apps/api/app/decision_intelligence/delay.py:396-405 | a verified course outside the base is left out exactly when no ready group of it has an option besides the target |
| DelaySafety.SilentlyBlocked | apps/api/app/decision_intelligence/delay.py:381-387 | a concrete catalog in which nothing is reported, although a course and another one behind it are attainable without the delay and in no run with it |
| DelayConsequence.BlockedButUnreported | apps/api/app/decision_intelligence/delay.py:385-387 | courses that wait for the target, or for such courses in turn, stay blocked in every run for the whole delay, and one of them goes unreported exactly when no ready group of it has an option besides the target |
| DelaySafety.ReportCompleteExactly | apps/api/app/decision_intelligence/delay.py:381-413 | the report lists every course the delay puts out of reach if and only if it lists every course that is eligible after a run exhausted without the delay and not after one exhausted with it |
| DelayConsequence.DirectMeansTargetDecides | apps/api/app/rules/evaluator.py:69-150 | for an ungated course, being directly affected is exactly that the target alone is what its prerequisite groups wait for |
| DelayConsequence.DependencyImpacts | apps/api/app/decision_intelligence/delay.py:125-139 | both passes as the analysis runs them: the computed direct set, graduation projects included, and its review flag, its closure with chains, depths, pop order and depth bounds, and that over a prerequisites-only catalog everything transitive stays out of reach in every legal run |
| AcademicDecisions.DecidesExactly | apps/api/app/rules/evaluator.py:35-150 | every decision of the evaluator, on the request: refused exactly when malformed or unknown; eligible, not eligible or under review exactly by whether the rule can be decided, every prerequisite group has a passed option, and a project has 90 known credits |
| AcademicDecisions.PassedExactly | apps/api/app/rules/evaluator.py:125-129 | a course counts as passed exactly when some attempt at it was passed |
| AcademicDecisions.UsableExactly | apps/api/app/rules/evaluator.py:107-123 | the prerequisite groups are accepted exactly when there is one, each has a positive number and an option, and no number is used twice, whatever the corequisites |
| AcademicDecisions.CreditsKnownExactly | apps/api/app/rules/project_credits.py:42-51 | a credit total is established exactly by a complete plan in which the last entry of every course has known credits |
| AcademicDecisions.CreditsAddUp | apps/api/app/rules/project_credits.py:47-51 | that total is zero without passes, and every further passed course adds the credits of its rule |
| AcademicRules.EligibleMeetsEveryGroup | apps/api/app/rules/evaluator.py:35-150 | a verified course is eligible only if every prerequisite group has a passed option, whether credits are stated in the request or computed |
| AcademicRules.MorePassesNeverHurt | apps/api/app/rules/evaluator.py:35-150 | passing more courses, with credits computed or stated and no fewer, never takes eligibility away |
| AcademicRules.ProjectNeedsKnownCredits | apps/api/app/rules/evaluator.py:42-56 | a graduation project is eligible only with known credits, stated or computed, of at least 90, and never without its prerequisites |
| ChangeImpact.BuildReverse | apps/api/app/change_impact/engine.py:149-153 | the reverse index lists for every course exactly the courses that use it as an option |
| ChangeImpact.Downstream | apps/api/app/change_impact/engine.py:148-167 | the search returns the whole sorted downstream closure or nothing; nothing exactly when more than max_nodes are reachable or some course at shortest distance max_depth has dependents |
| ChangeImpact.ShortestUpToLevel | apps/api/app/change_impact/engine.py:154-166 | breadth-first depth is shortest distance for everything up to the current level |
| ChangeImpact.ExhaustedIsExact | apps/api/app/change_impact/engine.py:156-167 | an empty queue means that exactly the reachable set was seen and neither bound exceeded |
| PrerequisiteChange.EditTouchesOneGroup | apps/api/app/change_impact/engine.py:117-123 | the proposed catalog differs from the original in the options of that one group |
| PrerequisiteChange.BaselineMatchesExactly | apps/api/app/change_impact/engine.py:92-105 | the baseline matches exactly when the course has a VERIFIED rule in which the first group of the number has the stated kind and old options |
| PrerequisiteChange.SwappedDeltaRestores | apps/api/app/change_impact/engine.py:117-123 | proposing the reverse change on the proposed catalog restores the original |
| PrerequisiteChange.DownstreamUnaffected | apps/api/app/change_impact/engine.py:113-123 | the edit changes neither what is reachable from the target nor whether it is too wide |
| PrerequisiteChange.RefusalUnaffectedWithoutCycle | apps/api/app/change_impact/engine.py:148-167 | without a cycle through the target the depth refusal agrees as well |
| PrerequisiteChange.RefusalChangesExactlyByCycle | apps/api/app/change_impact/engine.py:148-167 | the depth refusal differs exactly when nothing but the target lies beyond the bound and only one of the two catalogs lets the target close the cycle |
| PrerequisiteChange.CycleChangesRefusal | apps/api/app/change_impact/engine.py:113-123 | a concrete change for which it does differ |
| PrerequisiteChange.SearchesAgreeExactly | apps/api/app/change_impact/engine.py:113-123 | the two searches give the same answer, list or refusal, if and only if the closure is too wide anyway or the depth refusal agrees by the condition above |
| PrerequisiteChange.OnlyTargetEligibilityChanges | apps/api/app/change_impact/engine.py:126-137 | no course but the target changes its eligibility |
| PrerequisiteChange.ComparedExactly | apps/api/app/change_impact/engine.py:126-137 | a comparison sets the decision on the recorded rules before the one on the proposed rules, and there is one exactly for the courses both can answer |
| PrerequisiteChange.UnresolvedExactly | apps/api/app/change_impact/engine.py:131-135 | the conflict limitation is reported exactly when some course is neither eligible nor not eligible under one of the two catalogs |
| PrerequisiteChange.PrerequisiteReport | apps/api/app/change_impact/engine.py:85-145 | each status exactly when its conditions hold, with exactly its facts, decision classes and limitations; CHANGED lists exactly the courses reachable from the target, and only the target's comparison can differ |
| CreditTimeline.SimulateCreditTimeline | apps/api/app/degree_path/credit_timeline.py:175-215 | the loop returns the whole greedy schedule with the number of its regular and of its summer entries and the year and term of its last, refuses invalid assumptions exactly outside the stated bounds, and refuses otherwise exactly when that schedule needs more than 200 entries |
| CreditTimeline.PlanIsWellPlanned | apps/api/app/degree_path/credit_timeline.py:189-203 | planned credits sum to max(0, required - earned); all entries but the last are full; summers are enabled and at least 3; slots increase and only ever skip a summer; only the last entry leaves nothing |
| CreditTimeline.ModeledTermsCountsSlots | apps/api/app/degree_path/credit_timeline.py:113-118 | the closed form equals the number of calendar slots the loop went through |
| CreditTimeline.SmallPlansAlwaysReturn | apps/api/app/degree_path/credit_timeline.py:189-203 | fewer than initial/3 + 1 entries, so up to 600 credits always return |
| CreditTimeline.RegularOnlyHorizon | apps/api/app/degree_path/credit_timeline.py:202-203 | without summers exactly ceil(initial / load) entries, refused exactly beyond 200 loads |
| CreditTimeline.HeavierLoadsAtMostOneSlotLater | apps/api/app/degree_path/credit_timeline.py:189-203 | from the same start with no more credits and no smaller loads, the projection ends at most one slot later, and later only if the lighter one ended in a summer |
| CreditTimeline.HeavierLoadsEndLaterExactly | apps/api/app/degree_path/credit_timeline.py:189-203 | it ends later if and only if the lighter one ends in a summer and the heavier one enters that slot with more than zero and fewer than three credits left |
| CreditTimeline.HeavierLoadCanFinishLater | apps/api/app/degree_path/credit_timeline.py:190-194 | that extra slot is real |
| CreditComparison.MinByIsLeast | apps/api/app/degree_path/credit_timeline.py:132-137 | `min` by a lexicographic key returns a least candidate |
| CreditComparison.EvaluatedCount | apps/api/app/degree_path/credit_timeline.py:103-111 | between 12 and 20 candidates, one per pair of loads, no pair twice |
| CreditComparison.CandidatesExactly | apps/api/app/degree_path/credit_timeline.py:103-111 | the candidates are exactly the projections for a regular load of 12, 15, 18 or the preferred one and a summer load of 0, 3, 6, 9 or the preferred one |
| CreditComparison.RefusesExactly | apps/api/app/degree_path/credit_timeline.py:91-111 | a comparison is invalid exactly for preferences out of bounds, and otherwise refused exactly when some candidate is, with the error of such a candidate |
| CreditComparison.ParetoSound | apps/api/app/degree_path/credit_timeline.py:113-137 | FASTEST and LOWER_LOAD are never dominated, BALANCED not by a candidate at least as close to the stated preferences; what each optimises is stated by the next three rows |
| CreditComparison.FastestIsEarliest | apps/api/app/degree_path/credit_timeline.py:132-133 | no candidate takes fewer slots than FASTEST, none of those as fast has a smaller regular load, and none of those as light then a smaller summer load |
| CreditComparison.LowerLoadIsLightest | apps/api/app/degree_path/credit_timeline.py:136-137 | no candidate has a smaller regular load than LOWER_LOAD, none of those with the same one a smaller summer load, and none of those then takes fewer slots |
| CreditComparison.BalancedIsCheapest | apps/api/app/degree_path/credit_timeline.py:120-135 | BALANCED meets the stated loads, and no other candidate that does has a lower cost: four per slot plus the risk-weighted quadratic workload; ties go to speed and lighter loads |
| CreditComparison.ViewsAreOfTheirPlans | apps/api/app/degree_path/credit_timeline.py:139-162 | each view shows its plan, the entries and slots of it, and a match exactly when preferences are stated and all of them met |
| CreditComparison.BalancedHonoursPreferences | apps/api/app/degree_path/credit_timeline.py:127-146 | BALANCED always meets the stated load preferences exactly, so its match flag depends only on the stated pace |
| CreditComparison.HeaviestWithinOneSlotOfFastest | apps/api/app/degree_path/credit_timeline.py:132-133 | FASTEST beats the heaviest candidate by at most the one slot a skipped summer costs |
| ComputeLimiter.StepKeepsInv | apps/api/app/core/academic_compute.py:40-75 | every step of every call, worker and callback keeps permits plus held slots equal to the capacity and the counter equal to the counted calls |
| ComputeLimiter.CapacityNeverExceeded | apps/api/app/core/academic_compute.py:33-75 | over every interleaving 0 <= in_use <= held <= capacity and no more workers compute than are counted |
| ComputeLimiter.SlotReleasedExactlyOnce | apps/api/app/core/academic_compute.py:52-75 | a slot is acquired at most once per call, released at most once, and unreleased exactly while the call holds it, so never before its worker ended |
| ComputeLimiter.RejectedExactlyWhenFull | apps/api/app/core/academic_compute.py:40-41 | a call is turned away exactly when every slot is held, counting those of abandoned workers |
| ComputeLimiter.BudgetDecides | apps/api/app/core/academic_compute.py:48-70 | a worker's budget check raises exactly when its call is cancelled or its cutoff has come; an awaiting caller can leave with the result only once the worker ended, by a timeout only from the cutoff on, and cancelled at any time, and leaves the worker cancelled unless it took the result |
| ComputeLimiter.AbandonedWorker | apps/api/app/core/academic_compute.py:48-70 | after a timeout or cancellation the worker keeps its slot for as long as it computes and every later budget check raises |
| ComputeLimiter.EverySlotComesBack | apps/api/app/core/academic_compute.py:52-75 | from every reachable state the calls in flight can by their own steps bring every permit back |
| ComputeLimiter.AcademicComputeLimiter.Create | apps/api/app/core/academic_compute.py:20-26 | refuses a capacity below one, otherwise starts with all permits free |
| ComputeLimiter.AcademicComputeLimiter.Run | apps/api/app/core/academic_compute.py:33-75 | the coroutine, suspended for an arbitrary schedule between its sections: turned away exactly when full; a value, a worker's error, a timeout or a cancellation exactly when its caller left with the worker's result, with its failure, by its cutoff or with an expired budget, or was cancelled; slot refunded when its first budget check fails, still held while its worker computes |
| ReadinessTieBreak.EvaluateReadiness | apps/api/app/decision_intelligence/factors.py:83-128 | a factor applies only in readiness mode and only as 0 or 1 |
| ReadinessTieBreak.FactorAppliesExactly | apps/api/app/decision_intelligence/factors.py:83-128 | a factor applies exactly to dependable results in readiness mode, and is unfavourable exactly on caution |
| ReadinessTieBreak.ReasonsAreTrue | apps/api/app/decision_intelligence/factors.py:83-128 | the reason of every factor and of every abstention is true of its input |
| ReadinessTieBreak.GroupByKey | apps/api/app/decision_intelligence/recommendation.py:51-57 | the dictionary and the order list hold exactly the tie groups, in order of first appearance |
| ReadinessTieBreak.IntegrateRecommendations | apps/api/app/decision_intelligence/recommendation.py:29-113 | the loops compute the specification order, its views with old rank, new rank and factor, the applied and ignored factors, which together are all of them, and the trace of moves |
| ReadinessTieBreak.FinalIsPermutation | apps/api/app/decision_intelligence/recommendation.py:59-73 | every candidate comes out exactly once, whatever the baseline |
| ReadinessTieBreak.TieGroupsKeepTheirPlaces | apps/api/app/decision_intelligence/recommendation.py:59-73 | no course leaves the rank interval of its tie group |
| ReadinessTieBreak.StableReadinessSplit | apps/api/app/decision_intelligence/recommendation.py:61-73 | within a tie group, when every course has a factor that applies, all without caution come before all with caution, each by rank; with any abstention the group stays in rank order |
| ReadinessTieBreak.BaselineModeIsIdentity | apps/api/app/decision_intelligence/recommendation.py:51-73 | the baseline mode returns the baseline if and only if equal keys are contiguous in it |
| ReadinessTieBreak.FinalCodesAreUnique | apps/api/app/decision_intelligence/recommendation.py:75-77 | unique codes stay unique and the same |
| ReadinessTieBreak.TraceListsMovedCourses | apps/api/app/decision_intelligence/trace.py:8-18 | the trace lists exactly the moved courses with both ranks, and is empty exactly when the order is unchanged |
| RateLimiter.InMemoryLoginRateLimiter.CheckRateLimit | apps/api/app/core/rate_limiter.py:43-66 | each verdict is the one the whole accepted history calls for although evicted attempts are gone: allowed exactly when the closed window holds fewer than the maximum; other addresses are untouched |
| RateLimiter.LiveCounts | apps/api/app/core/rate_limiter.py:52-57 | eviction leaves exactly the attempts of the closed window |
| RateLimiter.WindowNeverOverfull | apps/api/app/core/rate_limiter.py:43-66 | no closed window ever holds more than the maximum of accepted attempts |
| RateLimiter.AllowedWhenFirstExpires | apps/api/app/core/rate_limiter.py:57-62 | after a denial the next attempt is allowed exactly when the earliest kept attempt has left the window |
| RateLimiter.RetryAfterIsOneSecondShort | apps/api/app/core/rate_limiter.py:58-62 | one second more than announced always works; exactly the announced time works if and only if less than a second was left |
| RateLimiter.OneAttemptAMinute | apps/api/app/core/rate_limiter.py:57-62 | one attempt a minute: the second is refused for 60 seconds, after 60 seconds still for one more, and allowed after 61 |
| RateLimiter.InMemoryLoginRateLimiter.Reset | apps/api/app/core/rate_limiter.py:68-70 | forgets every address |

## Left out

- HTTP, PostgREST, JSON decoding, FastAPI wiring, settings, authentication, Supabase row security: plumbing; of the adapters only the effect on shared state and the classification of outcomes is kept.
- Language-model provider, conversation agent, prompts, explanation text and all rendering: no provable core.
- SHA-256, JSON bytes and key order: one abstract digest of typed payloads; floating-point clocks and decimal rounding: reals.
- `analyze_delay` beyond its two passes (status and reason sets, progress, credit and path deltas, elective substitutes) and `compare_degree_path_results`: single-branch summaries of inputs computed elsewhere.
- `_affected` metadata (requirement type, plan membership) and evidence records: lookups.
- The other change-impact deltas (requirement credits, course credits, policy versions) and fingerprints: one comparison each.
- CreditComparison: scenario identifiers, indicator and limitation texts.
- ComputeLimiter: cancelling the worker task itself at event-loop shutdown, a failing `create_task`, and a calculation that raises the built-in TimeoutError; a cancellation event shared between calls appears as the event being set from outside.
- OutboxProtocol: which of several claimable events a batch picks (oldest first), the university filter, and row locking beyond the atomicity of each call; a batch claim is a run of single claims at one instant. A refused release or fail call appears as an answered call without effect.
- LedgerStorage: foreign keys to users and universities, the supersession trigger and the one-successor index, which can only refuse an append; in the protocol they are refusals. The database's collation is taken to order text as Python does.
- OutboxMapper: how a replay artifact is parsed and re-executed; only its comparison with the revision is kept. Text classification of error messages into two failure classes is left open.
- Replay, redaction, history pages and viewer reads of the ledger: separate services.
- Digital twin, advisor contracts, authorization, catalog loading, curriculum generation, web and end-to-end files: data checks that would only add easy members.
