# A verified model of the university system's core rules

This project models, in Dafny, the parts of the system whose correctness is hard to see
from reading one function, and proves what they promise over every input, every run and
every interleaving.

| component | files |
|---|---|
| tamper-evident audit chain, and its concurrent writers | `AuditChain.dfy`, `AuditWriters.dfy` |
| merit lists with reserved quotas | `MeritList.dfy`, `MeritPolicy.dfy` |
| offline outbox, flush, and the server's idempotency ledger | `SyncEngine.dfy`, `Outbox.dfy`, `SyncProtocol.dfy`, `SyncGuarantees.dfy`, `SyncRefinement.dfy`, `SyncAnswers.dfy`, `FlushGuard.dfy`, `SyncStranded.dfy` |
| prerequisite graph and course registration | `PrerequisiteGraph.dfy`, `Registration.dfy`, `RegistrationRuns.dfy`, `RegistrationService.dfy` |
| invoices, payments, refunds, and the reports on them | `FinanceLedger.dfy`, `FinanceRuns.dfy`, `FinanceReports.dfy`, `FinanceService.dfy` |
| grading scales and course results | `GradingScale.dfy`, `DecimalArithmetic.dfy`, `CourseResults.dfy` |
| issued identifiers | `IdAllocation.dfy`, `IdFormats.dfy` |
| shared | `Common.dfy`, `Sorting.dfy` |

Operations that change stored rows are methods of classes holding those rows. Each keeps
the class's invariant and says what it does in the system's own terms (balances, claims,
loads, what took effect); it is also a step of a specification function, and the promises
about runs are lemmas about every sequence of those steps. Protocols with several parties
(audit writers, counters, devices and server) are state machines over `seq<Action>`: a step
that is not enabled leaves the state as it is, so a theorem about every action sequence is
one about every interleaving.
SHA-256 (section 6.2 of FIPS 180-4) is a parameter of which only the 64-character digest is
assumed. Money is in cents, marks and weights are in hundredths, and clocks, permissions,
the calendar, holds, payment providers and handlers' verdicts are parameters.

## Where the code and its comments differ

- The ledger's `duplicate` status is described as "already applied"
  (`backend/apps/core/models.py:135`), and the outbox as never dropping an entry silently
  (`frontend/lib/outbox.ts:13`). The engine answers `duplicate` for any row it already
  holds, refused and conflicting ones included, and `pending()` re-sends failed entries. So
  an operation marked synced need not have been applied: `SyncGuarantees.RefusedEntryIsLost`
  exhibits the run, for every operation, with no message lost.
  `SyncEngine.SuccessIsTruthful`, `SyncGuarantees.ReplayTruthful` and
  `SyncGuarantees.SyncedExactly` give the exact condition (the ledger row says applied), and
  `SyncGuarantees.HonestRunSyncsOnlyApplied` the runs in which it always holds.
- `IdSequence.allocate` says a rollback leaves the counter advanced. The increment is made
  in the caller's transaction, so it is taken back: the committed values have no gap
  (`IdAllocation.TicketsNeverCollide`).
- The `flushing` flag does not keep flushes apart: it is read before an `await` and set
  after it (`frontend/lib/sync.ts:44-51`), and whichever flush ends first clears it
  (`:137-139`). `FlushGuard.OverlapArises` exhibits two flushes running at once,
  `FlushGuard.ThreeFlushes` a third entering after the first has cleared the flag under the
  second. `FlushGuard.OverlapExactly` gives the exact condition: two flushes ever run at
  once if and only if some flush sets the flag when it is already set, so testing it again
  where it is set (`frontend/lib/sync.ts:51`) is all the guard lacks.
- The offline payment handler compares amount and method with the payment already stored
  under a reference, but not the invoice. `FinanceReports.AcceptedOnNamedInvoice` says
  exactly when accepted money sits on the invoice the payload names;
  `FinanceReports.MisfiledReachable` leads there by sensible operations, and
  `FinanceReports.MisfiledForever` shows that no later step puts it right.
- A component is divided and weighted at 28 digits and then rounded half up, so an exact
  tie can be lost: 5.00 out of 14.00 at a weight of 21.07 is exactly 7.525 and is shown as
  7.52 (`DecimalArithmetic.TieLost`). `DecimalArithmetic.TieLostExactly` says when, and
  `DecimalArithmetic.EarnedExactly` that nothing but an exact tie can differ.

- `validate_bands` says of a highest band short of 100 that a full mark has no grade. The
  band it looks at is the one that starts highest, so it says this also when another band
  reaches 100 and the two overlap: `GradingScale.HighestBlamed` gives the input,
  `GradingScale.FaultsAreReal` what every refusal does establish.

## Model

| member | source | states |
|---|---|---|
| AuditChain.AppendIntact | backend/apps/audit/services.py:164-174 | a row keeps the chain intact if and only if its predecessor is the current tail hash |
| AuditChain.AuditTable.Write | backend/apps/audit/services.py:164-174 | appends exactly one row with the given payload and a fresh id, naming the tail (64 zeros at first) and hashing that and the payload; the log still verifies |
| AuditChain.Walk | backend/apps/audit/services.py:273-300 | the reported break is the first broken link, with the right id, count and cause; a clean report means every link holds |
| AuditChain.VerifyChain | backend/apps/audit/services.py:256-300 | the same for any start id and limit, starting from the hash of the last row at or before the start id |
| AuditChain.SelectionExact | backend/apps/audit/services.py:261-270 | what is read is exactly the rows with an id above the start, the first of them under a non-zero limit, checked from the hash of the last row not above it or from genesis |
| AuditChain.DescribesUnique | backend/apps/audit/services.py:273-300 | supporting fact: a log has only one true report |
| AuditChain.PrefixThenResume | backend/apps/audit/services.py:256-271 | verifying a prefix and resuming from its last id gives the report of verifying everything |
| AuditChain.Binding | backend/apps/audit/services.py:82-83 | two logs of any lengths that verify and end in the same hash hold the same rows, or exhibit a collision or a preimage of the genesis value |
| AuditChain.TruncationVerifies | backend/apps/audit/services.py:256-300 | supporting fact: cutting off the tail is not detected, so tamper claims need a known final hash |
| AuditChain.EditPinpointed | backend/apps/audit/services.py:284-295 | editing one payload is reported at exactly that row, if and only if the two inputs do not collide |
| AuditChain.DeletionPinpointed | backend/apps/audit/services.py:274-283 | deleting an inner row is reported at exactly the row after it, if and only if its hash differs from its predecessor's |
| AuditChain.UserAgentUncovered | backend/apps/audit/services.py:51-79 | supporting fact: rewriting a user agent, which the digest leaves out, changes no report |
| AuditWriters.StepKeepsInv | backend/apps/audit/services.py:86-92 | every lock, read, insert, savepoint, commit and rollback step keeps the committed log, and each open transaction's view of it, one intact chain |
| AuditWriters.RunKeepsInv | backend/apps/audit/services.py:164-174 | hence so does every interleaving of any number of transactions |
| AuditWriters.OneWriterAtATime | backend/apps/audit/services.py:86-92 | in every interleaving only the holder of the lock has uncommitted rows or is between the lock and the insert |
| AuditWriters.EveryInterleavingVerifies | backend/apps/audit/services.py:86-92 | in every interleaving, the committed log and every open transaction's view of it are reported intact in full |
| AuditWriters.NoSharedPredecessor | backend/apps/audit/services.py:164-174 | two committed rows never name the same predecessor, except through a row whose own hash is the genesis value |
| AuditWriters.CommittedOnlyGrows | backend/apps/audit/services.py:164-176 | the committed log is append-only over every run |
| AuditWriters.CommittedExactly | backend/apps/audit/services.py:164-176 | over every run the committed log is, row by row in commit order, exactly what committed transactions inserted and no rollback took back, repeated hashes aside |
| AuditWriters.WriteThenCommit | backend/apps/audit/services.py:164-176 | with the lock free, one write and its commit extend the log by exactly that row, unless its hash is a repeated one |
| MeritList.RankedFacts | backend/apps/admissions/merit_list.py:62-72 | the ranking is a permutation of the candidates in strict rank order |
| MeritList.RankingUnique | backend/apps/admissions/merit_list.py:62-72 | it is the only such list |
| MeritList.GreedyPass | backend/apps/admissions/merit_list.py:88-108 | one greedy loop admits exactly the best-ranked eligible candidates, as many as there are seats |
| MeritList.FillBuckets | backend/apps/admissions/merit_list.py:84-97 | the nested bucket loops equal the declarative bucket-by-bucket choice |
| MeritList.FillSeats | backend/apps/admissions/merit_list.py:76-108 | buckets first, then the best of the rest for the seats that remain; everyone when there is no total |
| MeritList.GenerateMeritList | backend/apps/admissions/merit_list.py:69-119 | the whole algorithm equals the list stated without loops |
| MeritPolicy.OrderIndependent | backend/apps/admissions/merit_list.py:62-83 | any permutation of the applications gives the identical list |
| MeritPolicy.RankCountsBetter | backend/apps/admissions/merit_list.py:110-119 | each rank is one plus the number of strictly better candidates, and each row shows the admission decision and its quota |
| MeritPolicy.ListOrder | backend/apps/admissions/merit_list.py:62-72 | rows stand in order of score, unscored last, and the smaller application id first among equals |
| MeritPolicy.NoTotalAdmitsAll | backend/apps/admissions/merit_list.py:76-82 | without a total everyone is admitted, on no quota |
| MeritPolicy.SeatsConserved | backend/apps/admissions/merit_list.py:85-108 | with R admitted through buckets, exactly R + min(n - R, max(0, total - R)) are admitted; min(n, total) when the buckets reserve no more than the total |
| MeritPolicy.BucketFills | backend/apps/admissions/merit_list.py:86-97 | a bucket admits min(seats, n) of the n candidates who match it and no earlier bucket admitted, and only those, under its own label |
| MeritPolicy.LeftOutOnlyWhenFull | backend/apps/admissions/merit_list.py:86-99 | a candidate who matches a bucket and is in no list by its end was left out only because it is full |
| MeritPolicy.NoEnvyGeneral | backend/apps/admissions/merit_list.py:101-108 | if someone is admitted on general merit, everyone ranked above is admitted |
| MeritPolicy.QuotaNamesBucket | backend/apps/admissions/merit_list.py:86-97 | a reserved category shown on an admission names a bucket that matched and admitted the candidate |
| MeritPolicy.NoEnvyReserved | backend/apps/admissions/merit_list.py:85-99 | if a bucket admits someone, every matching candidate ranked above was admitted by it or an earlier one |
| MeritPolicy.RespectsImprovement | backend/apps/admissions/merit_list.py:62-119 | raising one score, all else fixed, never turns that candidate from admitted to not admitted nor worsens their rank |
| SyncEngine.SyncService.Submit | backend/apps/core/sync/engine.py:76-198 | a first submission takes effect and succeeds if and only if its handler accepts, and its row and answer say which way it ended; a known one changes nothing and its success is true if and only if its row says applied; no other row or effect is touched |
| SyncEngine.SyncService.SubmitBatch | backend/apps/core/sync/engine.py:261-263 | a batch is its operations one after the other, each with its own answer |
| SyncEngine.BatchSplits | backend/apps/core/sync/engine.py:261-263 | a batch equals its parts run one after the other, in ledger, effects and answers |
| SyncEngine.SuccessIsTruthful | backend/apps/core/sync/engine.py:101-153 | a success answer is true if and only if the operation was not already in the ledger in a state other than applied |
| SyncEngine.BatchKeepsSound | backend/apps/core/sync/engine.py:101-153 | after any batch, exactly the operations whose row says applied took effect, once each and with the recorded content |
| SyncEngine.ReplayReturnsOriginal | backend/apps/core/sync/engine.py:7-9 | at any later point a replay changes nothing and returns the first application's result |
| Outbox.Device.Enqueue | frontend/lib/outbox.ts:75-99 | stores one new pending operation and leaves the others alone |
| Outbox.Device.All | frontend/lib/outbox.ts:101-105 | lists each stored operation once, oldest first |
| Outbox.Device.Pending | frontend/lib/outbox.ts:107-111 | the waiting and failed ones of such a listing, in its order |
| Outbox.Device.Update | frontend/lib/outbox.ts:117-126 | merges the changes into a stored operation, and does nothing for an unknown id |
| Outbox.Device.Remove | frontend/lib/outbox.ts:128-132 | removes exactly that operation |
| Outbox.Device.ClearSynced | frontend/lib/outbox.ts:135-147 | removes exactly the synced operations and returns how many |
| Outbox.Device.MarkBatch | frontend/lib/sync.ts:55-57 | marks the batch as syncing and nothing else |
| Outbox.Device.SettleBatch | frontend/lib/sync.ts:70-109 | records every answer and counts them by status |
| Outbox.Device.RestoreBatch | frontend/lib/sync.ts:118-130 | puts every operation sent back to pending with one more attempt |
| Outbox.Device.Flush | frontend/lib/sync.ts:43-140 | when a flush sends nothing, what it sends, and the store, backoff and summary it leaves with and without an answer |
| Outbox.OldestFirst | frontend/lib/outbox.ts:107-111 | a batch holds pending operations only, and nothing pending left behind is older than anything sent |
| Outbox.BatchFull | frontend/lib/sync.ts:48-52 | a batch holds at most fifty operations, and fewer only when it holds everything pending |
| Outbox.MarkingKeeps | frontend/lib/sync.ts:55-57 | marking makes exactly the batch syncing and changes nothing else |
| Outbox.SettlingKeeps | frontend/lib/sync.ts:72-109 | recording answers loses nothing and touches only answered operations; with one answer for each id, each ends synced with its result or failed with the error, one attempt later |
| Outbox.RestoringKeeps | frontend/lib/sync.ts:118-130 | a failed flush loses nothing, touches only what it sent, and leaves that waiting with the error and one more attempt |
| Outbox.BackoffBounded | frontend/lib/sync.ts:132-134 | the backoff starts at five seconds, doubles with each attempt and stops at five minutes, from the seventh attempt on |
| Outbox.MaxAttemptsExact | frontend/lib/sync.ts:132 | it is computed from the largest number of attempts in the batch, this one included |
| SyncProtocol.StepKeepsInv | frontend/lib/sync.ts:43-140 | each step of devices, network and server keeps every stored, sent and recorded operation as queued, and every success answer backed by the ledger |
| SyncProtocol.RunKeepsInv | frontend/lib/sync.ts:43-140 | hence so does every run, with lost messages, reloads and overlapping flushes |
| SyncGuarantees.AtMostOnce | backend/apps/core/models.py:151-160 | over every run each operation takes effect at most once, with the content it was queued with |
| SyncGuarantees.ContentNeverChanges | frontend/lib/outbox.ts:117-126 | at any two moments of any run, wherever an operation is found (store, flush, request, ledger, effects), its content is the same |
| SyncGuarantees.NeverSilentlyDropped | frontend/lib/outbox.ts:128-147 | over every run, an operation once stored and later gone was removed explicitly, or cleared after a clear had read it as synced |
| SyncGuarantees.SyncedExactly | frontend/lib/sync.ts:77-86 | over every run a synced operation is in the ledger, and took effect if and only if its row says applied |
| SyncGuarantees.ReplayTruthful | backend/apps/core/sync/engine.py:114-123 | in every run, the success answered to a known operation is true if and only if its row says applied at that moment |
| SyncGuarantees.HonestRunSyncsOnlyApplied | backend/apps/core/models.py:135 | in runs where only applied operations are met again, everything synced or cleared took effect |
| SyncGuarantees.RefusedEntryIsLost | backend/apps/core/sync/engine.py:114-123 | for every operation there is a loss-free run of whole flushes that refuses it, marks it synced and clears it without any effect |
| SyncRefinement.FlushIsRun | frontend/lib/sync.ts:43-114 | an undisturbed answered flush, with the server's batch, leaves what some run of the protocol's small steps leaves |
| SyncRefinement.FailedFlushIsRun | frontend/lib/sync.ts:115-140 | so does one that gets no answer |
| SyncRefinement.FlushSettlesAll | frontend/lib/sync.ts:72-111 | after an undisturbed answered flush all it sent is synced or failed by its own answer, with result, error and attempts; all else is untouched, and nothing is newly left syncing |
| SyncRefinement.QueueingIsStep | frontend/lib/outbox.ts:75-99 | queueing and removing are protocol steps with the effect of the device operations |
| SyncRefinement.ClearIsRun | frontend/lib/outbox.ts:135-147 | an undisturbed clear is a run that removes exactly the synced operations |
| SyncAnswers.EachItsOwnAnswer | frontend/lib/sync.ts:59-73 | over every run a flush carries at most fifty operations and records exactly one answer for each, in order |
| FlushGuard.PassesUnder | frontend/lib/sync.ts:44 | while a flush runs, another call passes the test if and only if the last to write the flag was some flush's `finally` |
| FlushGuard.WhereTheTestFell | frontend/lib/sync.ts:44-51 | of two flushes running at once, the second was tested before the first set the flag, if and only if no `finally` cleared it in between |
| FlushGuard.OverlapExactly | frontend/lib/sync.ts:51 | over every run, two flushes ever run at once if and only if some flush sets the flag when it is already set |
| FlushGuard.RaceStartsEarly | frontend/lib/sync.ts:44-51 | supporting fact: the first overlap has one of the two tested before the other set the flag |
| FlushGuard.OverlapArises | frontend/lib/sync.ts:44-51 | wherever something is pending and the flag is clear, two calls in turn both run |
| FlushGuard.ThreeFlushes | frontend/lib/sync.ts:115-139 | a run from the start in which the first of two flushes clears the flag under the second and a third runs beside it |
| SyncStranded.NeverSentAgain | frontend/lib/outbox.ts:107-111 | after any run, an operation that is syncing when the page reloads is in no later request and stays syncing unless removed explicitly |
| PrerequisiteGraph.CreatesCycle | backend/apps/curriculum/models.py:431-455 | the search terminates and answers true if and only if the course is reachable from the required one without the edited link |
| PrerequisiteGraph.GuardExact | backend/apps/curriculum/models.py:414-429 | adding a link to an acyclic graph keeps it acyclic if and only if that search answers false |
| PrerequisiteGraph.PrerequisiteTable.Save | backend/apps/curriculum/models.py:398-429 | every accepted insert or edit keeps the graph acyclic and the pairs distinct; the self and cycle refusals are exactly the saves that would not be acyclic, the pair refusal exactly those that repeat a pair |
| Registration.UnmetPrerequisites | backend/apps/curriculum/services.py:83-143 | returns, in order, exactly the links not satisfied by the history and concurrent courses |
| Registration.UnknownGradesPass | backend/apps/enrollment/services.py:57-68 | with unknown grades nothing is unmet if and only if every required course is completed |
| RegistrationService.RegistrationTable.RegisterCourse | backend/apps/enrollment/services.py:80-171 | succeeds if and only if window, earlier rows, student, course, prerequisites, credits and holds all allow it; each refusal names what did not; success adds one active row, marked a repeat exactly when the course is taken in another semester, and its credits, and nothing else |
| RegistrationService.RegistrationTable.DropCourse | backend/apps/enrollment/services.py:174-199 | succeeds if and only if active, with a reason and an open window; takes exactly the credits off that load and nothing off what is completed |
| RegistrationService.RegistrationTable.RecordPriorCompletion | backend/apps/enrollment/services.py:202-221 | adds exactly that course to what that student has passed, for nobody else, and frees its credits if it was active; a second one changes nothing |
| RegistrationRuns.StepKeepsInv | backend/apps/enrollment/services.py:80-221 | every operation keeps loads within limits, one row per student, course and semester, and prerequisites completed before |
| RegistrationRuns.RegistrationSafe | backend/apps/enrollment/services.py:80-221 | over every run from an empty table these hold |
| RegistrationRuns.CompletedForever | backend/apps/enrollment/services.py:100-101 | a completed row never changes, whatever happens next |
| RegistrationRuns.Completable | backend/apps/enrollment/services.py:106-119 | with the gates open, a course that depends on no cycle is completed by calls that all succeed, from any settled history |
| RegistrationRuns.RegistrableExactly | backend/apps/enrollment/services.py:106-119 | with the gates open, a course is registered in some run if and only if it depends on no cycle |
| RegistrationRuns.AcyclicCompletable | backend/apps/curriculum/models.py:431-437 | in an acyclic catalogue every course can be completed from an empty history |
| RegistrationRuns.CyclicNeverRegistered | backend/apps/enrollment/services.py:106-119 | with any gates, a course that depends on a cycle is never registered |
| FinanceLedger.DiscountBounded | backend/apps/finance/models.py:282-291 | a discount lies between zero and what it discounts; a percentage award is within half a cent of the exact share, ties to even; a fixed one is taken in full while there is anything to take; an inactive one takes nothing |
| FinanceService.Ledger.CreateInvoice | backend/apps/finance/services.py:145-195 | issued exactly when the student has none for the semester and a fee is set up; the amount is fee plus hostel fee, the discount what the award takes off the fee, and all that is owed is added to that student's balance and nobody else's |
| FinanceService.Ledger.RefreshInvoiceStatus | backend/apps/finance/services.py:225-237 | an open invoice gets the status its payments say, except that one that owes nothing and was never paid would show as settled; nothing else changes |
| FinanceService.Ledger.ConfirmPayment | backend/apps/finance/services.py:364-374 | a pending payment is confirmed under a receipt number never used before; its invoice's balance falls by exactly its amount and no other moves |
| FinanceService.Ledger.Record | backend/apps/finance/services.py:243-276 | recorded exactly when the method is manual, the invoice exists and the reference is new; cash alone moves a balance, that invoice's, by exactly the amount |
| FinanceService.Ledger.ConfirmManual | backend/apps/finance/services.py:279-284 | exactly the pending payments can be confirmed, each lowering its invoice's balance once |
| FinanceService.Ledger.RejectManual | backend/apps/finance/services.py:287-298 | exactly the pending payments can be rejected, with a reason, and no balance moves |
| FinanceService.Ledger.InitiateMobile | backend/apps/finance/services.py:301-325 | opened exactly when something is asked for or owed under a new reference, for exactly the amount asked or owed; moves no balance, receipt or refund |
| FinanceService.Ledger.PollMobile | backend/apps/finance/services.py:328-343 | a pending payment's balance moves if and only if the provider confirms it; any other payment is left alone |
| FinanceService.Ledger.HandleWebhook | backend/apps/finance/services.py:346-361 | changes something exactly when genuine, confirmed, and naming a pending payment's reference; then it confirms that payment |
| FinanceService.Ledger.Request | backend/apps/finance/services.py:433-457 | recorded exactly when the payment is confirmed and the amount fits what is unclaimed of it; claims exactly that amount |
| FinanceService.Ledger.Decide | backend/apps/finance/services.py:460-474 | an approved refund becomes approved and keeps its claim, a rejected one gives exactly its amount back to the payment, and nothing is paid out |
| FinanceService.Ledger.PayRefund | backend/apps/finance/services.py:477-486 | exactly the approved refunds are paid out, once; the total paid out rises by the refund and stays within what was confirmed |
| FinanceService.Ledger.ApplyOffline | backend/apps/finance/sync.py:36-76 | an accepted payload leaves exactly one payment under its reference, with its amount and method; one seen before or in conflict changes nothing |
| FinanceRuns.StepKeepsSound | backend/apps/finance/services.py:225-486 | every operation keeps the status cache, unique keys and receipts, and refunds within confirmed payments |
| FinanceRuns.RunKeepsSound | backend/apps/finance/services.py:225-486 | hence so does every run |
| FinanceReports.StatusCacheAgrees | backend/apps/finance/services.py:225-237 | in every reachable state the stored status is issued, partially paid or paid exactly when the payments say so |
| FinanceReports.DefaulterReport | backend/apps/finance/services.py:532-560 | lists, newest first and once each, exactly the unsettled invoices in scope with a positive balance |
| FinanceReports.ReportsAgree | backend/apps/finance/services.py:492-560 | in every reachable state fee balances and `outstanding` are sums of max(0, net - paid), `collected` of min(net, paid), and the defaulter rows are exactly the owing invoices and add up to `outstanding` |
| FinanceReports.RevenueAddsUp | backend/apps/finance/services.py:502-529 | the totals count each invoice of the scope in full with its discount, nothing when there is none, and what is billed is collected or outstanding |
| FinanceReports.RunKeeps | backend/apps/finance/services.py:243-374 | over every run a payment keeps invoice, method, amount and reference, and once settled its status and receipt |
| FinanceReports.RefundsConserved | backend/apps/finance/services.py:433-486 | in every reachable state refunds sit on confirmed payments, stay within each, and pay out in total no more than was confirmed |
| FinanceReports.ReplayChangesNothing | backend/apps/finance/sync.py:55-67 | replaying a processed payload at any later point changes no row and gives the same answer |
| FinanceReports.OnePaymentPerReference | backend/apps/finance/models.py:190 | each reference has one payment for good, whose amount and method never change |
| FinanceReports.AcceptedOnNamedInvoice | backend/apps/finance/sync.py:53-67 | an accepted payment sits on the invoice the payload names if and only if the reference was free or already on that invoice |
| FinanceReports.MisfiledReachable | backend/apps/finance/sync.py:51-66 | sensible operations lead to books where a payload naming one invoice is accepted as the payment already on another |
| FinanceReports.MisfiledForever | backend/apps/finance/sync.py:51-66 | such a payload changes no row, now or replayed after any later operations, and its reference never belongs to the invoice it names |
| GradingScale.ValidationExact | backend/apps/academics/models.py:311-362 | a scale is accepted if and only if its bands are non-empty with grade points in range and every two-decimal mark lies in exactly one |
| GradingScale.AcceptanceOrderFree | backend/apps/academics/models.py:323 | the order the bands come in never decides acceptance |
| GradingScale.FaultsAreReal | backend/apps/academics/models.py:311-362 | what a refusal says is true of the scale: a gap is a mark in no band, an overlap a mark in two, and so on; a highest band short of 100 means no band holds 100 or two bands overlap |
| GradingScale.HighestBlamed | backend/apps/academics/models.py:341-344 | the input on which the highest band is blamed although 100 has a grade |
| GradingScale.AcceptedScaleGrades | backend/apps/academics/services/grading.py:56-92 | on an accepted scale every percentage is graded, by the one band that holds it |
| GradingScale.GradeForExact | backend/apps/academics/services/grading.py:56-92 | on any scale a percentage is graded by the first band that holds it, if one does, and refused outside 0..100 |
| CourseResults.CourseResult | backend/apps/examinations/services.py:228-309 | percentage, completeness, irregularity, configuration error and grade, each exactly characterised |
| CourseResults.ModerationReplaces | backend/apps/examinations/models.py:147-149 | a result with a moderated score equals the one with that score entered, in percentage and grade |
| CourseResults.PlainScoreIsPercent | backend/apps/examinations/services.py:257-274 | an unmoderated score on the one assessment of a scheme, out of a hundred, is the percentage |
| CourseResults.WeightsAddUp | backend/apps/examinations/services.py:123-138 | supporting fact: the total that is checked against 100 is the sum of the weights |
| CourseResults.PercentBounded | backend/apps/examinations/services.py:257-274 | with weights summing to 100 the sum of separately rounded components stays in 0..100 |
| CourseResults.PercentNearExact | backend/apps/examinations/services.py:64-65 | it is within n/200 of the exact weighted percentage |
| CourseResults.PercentMonotone | backend/apps/examinations/services.py:257-274 | it never falls when scores rise or missing marks arrive, lost ties included |
| DecimalArithmetic.EarnedExactly | backend/apps/examinations/services.py:271-274 | with both 28-digit roundings computed, a component is the exact share rounded half up, unless that is an exact tie computed too small |
| DecimalArithmetic.TieLostExactly | backend/apps/examinations/services.py:271-274 | an exact tie is lost if and only if what the quotient fell short by, times the weight, is more than half a unit of the product's last digit |
| DecimalArithmetic.TieLost | backend/apps/examinations/services.py:271-274 | the input on which a tie is lost, every digit computed: 7.525 shown as 7.52 |
| CourseResults.EveryResultGraded | backend/apps/examinations/services.py:296-307 | so it falls in exactly one band of any accepted scale |
| IdAllocation.StepKeepsInv | backend/apps/core/models.py:102-121 | every begin, allocate, savepoint, commit and rollback step keeps committed values distinct and locks exclusive |
| IdAllocation.TicketsNeverCollide | backend/apps/core/models.py:102-121 | in every interleaving the committed values of a scope are exactly 1 to the counter, once each |
| IdAllocation.IssuedExactly | backend/apps/core/models.py:102-121 | over every run the committed tickets are, in commit order, one for each allocation of a committed transaction that no rollback took back |
| IdAllocation.SequenceTable.Allocate | backend/apps/core/models.py:102-121 | returns one more than the last value and changes that counter only |
| IdFormats.ReadPadded | backend/apps/finance/id_generation.py:16-19 | zero-padded numbers read back to their value, past the padding width too |
| IdFormats.StudentIdRoundTrip | backend/apps/registry/id_generation.py:54-77 | a student ID parses back to faculty, programme, year and sequence number |
| IdFormats.DocumentNumberRoundTrip | backend/apps/finance/id_generation.py:16-25 | invoice and receipt numbers parse back to kind, year and sequence number |
| IdFormats.GenerateDocumentNumber | backend/apps/finance/id_generation.py:16-25 | issues INV or RCT, the leading year and the next number of that kind and year, and moves no other counter |
| IdFormats.GenerateStudentId | backend/apps/registry/id_generation.py:54-77 | issues the next number of that faculty, programme and intake year in the default form, and moves no other counter |
| IdFormats.LeadingYearIs | backend/apps/registry/id_generation.py:62 | the year is what comes before the first "/", without the blanks around it |
| IdFormats.StudentIdsDistinct | backend/apps/registry/id_generation.py:44-77 | over every interleaving no two committed students print the same ID |
| IdFormats.DocumentNumbersDistinct | backend/apps/finance/id_generation.py:16-25 | the same for invoices and receipts, across years and kinds |

## Left out

- MeritList.GreedyPass: stands for the bucket loop and the general loop alike; the code writes the same loop twice.
- SyncProtocol.StepKeepsInv: a flush may start with any fifty or fewer pending operations, which covers the batch the code takes; the exact batch is in `Outbox.Device.Flush`.
- SyncProtocol.RunKeepsInv: no claim that a queued operation is ever delivered, nor that flushes exclude each other; `SyncStranded.NeverSentAgain` and `FlushGuard.OverlapArises` show that the code provides neither.
- AuditWriters.StepKeepsInv: the PostgreSQL advisory lock only; the row-lock fallback for other databases is documented as weaker.
- RegistrationRuns.RegistrationSafe: operations of one run follow one another; concurrent registrations are not interleaved, and the catalogue (credits, limits, links) is fixed. Soft-deleted courses are not modelled.
- PrerequisiteGraph.PrerequisiteTable.Save: edits follow one another; two concurrent saves are not interleaved, and deleting a link is not an operation.
- FinanceRuns.RunKeepsSound: finance operations of one run follow one another; the code reads the claimed sum of a payment without a lock, so two concurrent refund requests are not covered.
- FinanceReports.ReportsAgree: payments, refunds, fees and awards are assumed to have sensible signs, which the code does not check; amounts of different currencies are added as the code adds them.
- FinanceService.Ledger.ConfirmPayment: one receipt counter; the per-year receipt numbers are in `IdFormats`.
- CourseResults.PercentBounded: effective scores are assumed within their maxima, because a moderated score is not checked against its maximum; maxima and weights are taken to be what their columns and validators allow (at most 9999.99 and 100.00).
- CourseResults.CourseResult: the list of components shown beside the percentage is not returned.
- Outbox.Device.Flush: one error message stands for those of all refusals in a batch; the order of operations created in the same millisecond is left open.
- SyncEngine.SyncService.Submit: what handlers write is one effect per applied operation, and the human review of conflicts is left out. So are the audit entries for overwritten values, written after the commit but inside the same `try` (`backend/apps/core/sync/engine.py:145-146`): an exception there would answer `rejected` for an operation that took effect. No handler in the repository reports an overwrite, so today none is written.
- SyncStranded.NeverSentAgain: one page. Two tabs share the store but neither the flag nor the flushes, so another tab may still hold an operation that looks stranded to this one.
- IdFormats.StudentIdRoundTrip: the default template only, since a custom one may omit parts; codes contain no "/". Years are stripped of ASCII blanks only, and counters have no upper bound.
- MeritList.GenerateMeritList: attribute values are strings or missing; application ids are distinct, as database keys are.
- Checks of field lengths and of the number of digits, the encoding of JSON and UUIDs, and the batch run that issues invoices for a whole semester.
- Staff, application and document numbers, GPA, hostel, library, human resources, alumni, appeals, roles, login and notifications: short workflows that would add only easy members.
- Views, serializers, administration pages and React components.
