# VibefyCode: a verified model of the worker's protocols and the badge

VibefyCode assesses applications, keeps the evidence, watches the applications afterwards
and signs a badge for those that pass. Its worker shares one database, one object store
and a few providers with other workers, and every one of them can fail between any two
calls. This project models what the worker does to that shared state, and the signature
scheme of the badge, and proves what has to hold over every interleaving, every answer and
every input.

The modules, by component:

- **Assessment queue.** `RequestQueue` is the table and its four operations;
  `QueueProtocol` is many workers, timers, deaths, cancellations and the reclaim sweep as
  steps; `QueueTheorems` is what every run keeps. Single ownership is a timing argument
  with no lock behind it, and the theorem says exactly which timing it needs.
- **Evidence.** `OrphanAudit` is the audit rule both sides share. `EvidenceStore` and
  `RetentionSweep` are the tables and the two operations that change them, in place, with
  every answer of the store and the database a parameter; `RetentionOutcome` is what one
  sweep comes to. `EvidenceProtocol` and `EvidenceTheorems` let any number of persists and
  sweeps interleave call by call.
- **The bounded sweep window.** `StuckWindow` is the in-memory count, the sort key and one
  sweep; `WindowOutcome` is what one sweep comes to; `SweepFairness` is the no-starvation
  bound, and exactly when the window jams.
- **The badge.** `JsonText`, `Utf8` and `BadgePayload` are the canonical text, its bytes
  and a reader for it; `CanonicalText` is why there is only one such text; `BadgeKeys` and
  `BadgeSigning` are key sets, signing, verifying and rotation; `Calendar` and `BadgeTerm`
  are the term; `BadgeLifecycle` is every statement that may change a badge's status.
- **Delivery.** `Delivery` is the email, push and undelivered-notice sweeps over their
  tables; `DeliveryTheorems` and `DeliveryOutcome` are one sweep; `WriteOff` is the last
  day of an alert's window; `DeliveryRuns` is whole runs of all three, each page's reading
  and answers interleaved with the others'.
- **The rest.** `Assurance` is the visitor's list; `Reassessment` is scheduled
  re-assessment, by several processes at once and beside the index on live requests, and
  `ReassessmentOutcome` one sweep of it; `SweepGuard` is the one-of-a-kind guard and its
  stuck-sweep alarm; `Options` and `Counting` are shared.

Code that changes state in place is a class or a method here, proved equal to a
specification function of the old state; the properties are lemmas about that function and
about runs of it. The lemmas that say what one operation comes to speak of the inputs and
the answers alone, and not of the functions the specification is put together from.
Answers nobody controls are parameters: what the object store, the database and the
providers reply, call by call; the clock; the order of steps; which process dies and when.
Queries with an `order by` and a `limit` are parameters required to be what the query
returns. Ed25519 (section 5.1 of RFC 8032) is a scheme whose only assumed law is that a
signature verifies under the matching public key; strings follow section 7 of RFC 8259, bytes section 3 of RFC 3629,
published keys section 2 of RFC 8037, and dates MakeDay, section 21.4.1 of ECMA-262.

Where the code falls short of its own account, the shortfall is proved, with the exact
condition under which the account holds:

- The queue's single ownership, and its limit of three claims, hold exactly when the
  worker's own statements fit in the thirty minutes between the two timeouts
  (`OneOwnerIffBookkeepingFits`, `ThreeClaimsIffBookkeepingFits`); finished requests stay
  finished exactly when they fit and no reply is lost (`SettledIffFitsAndHeard`).
- The upload loop and the `begin` are outside the `try`, and the clean-up is behind the
  `rollback`. Bytes stored before one of them fails are on no record and nothing ever
  reaches them again (`FailedUploadStrands`, `StrandedForGood`);
  they are exactly the bytes the books do not account for (`BytesAccountedIffBegun`).
- The outstanding count balances, whatever is answered, exactly when no readable orphan
  the retry pass will reach speaks for another row of the log (`AlwaysBalancesIff`); two
  overlapping sweeps make a log in which one does (`OverlappingSweepsDoubleTheOrphan`).
  Orphans with no readable path can jam the retry pass (`RetryIsJammedIff`).
- A report that is recovered and then fails again is stuck and still sorted first, and can
  jam the report window (`RecoveredReportJamsTheWindow`). A page full of such rows, and
  nothing less, shuts the window to every row that waits or arrives (`ShutOutIff`).
- A twelve-month badge issued on 29 February ends on 1 March, which the table's own
  constraint refuses (`TermAcceptedIff`).
- The lifecycle sweep needs a second pass in exactly one case (`SweepSettles`), and an
  expiry lasts exactly when no badge was down for an outage past its date, because the
  liveness restore does not look at the term (`ExpiryLastsIff`).
- "A suppressed address is never written to again" holds between sweeps and not inside
  one: it holds of a page exactly when no two of its rows share an address
  (`SuppressionHeededIff`, `SecondNoticeIsSentAnyway`).
- "Never given" is final exactly when an alert's age at the reading and the time to its
  answer together stay within the window; otherwise one alert can be recorded as never
  given and then delivered (`NotGivenIsFinalIff`).
- A message is taken once and its record says so exactly when nothing is taken for a row
  recorded since its sweep's reading (`OnceEachIffFresh`), which holds over every run
  exactly when each kind of sweep is alone, as behind one process's guard
  (`RecordsAgreeIff`, `SentTwice`).
- Scheduled requests are a cadence apart as long as none made since a sweep's reading stops
  being live before that sweep comes to its application, and no longer
  (`SpacedIffNoneEndsMeanwhile`). That always holds behind the guard of one process, and
  for any number of processes where a request lives longer than a sweep takes: then the
  index that refuses a second live request is enough. With neither, some run asks twice, a
  request's life apart (`AlwaysSpacedIff`, `AskedTwice`).
- The query and the page read an empty stored path differently, and nothing else sets their
  backlogs apart (`SpellingsAgreeIff`, `EmptyPathDivides`).
- The sentence "what is reported here is a gate" stands exactly when no finding beyond an
  observation is against the claim's criteria, which a finding outside the rubric can be
  (`GateOnlyIsTrueIff`, `GateOnlyCanMislead`).

## Model

| member | source | states |
|---|---|---|
| RequestQueue.IsRetryableFailure | apps/worker/src/queue.ts:128-137 | a failure is not retried exactly when it says so itself or its SQLSTATE is in class 22, 23 or 42, however short the code |
| RequestQueue.RequestTable.ClaimNextRequest | apps/worker/src/queue.ts:23-70 | takes a queued, unlocked row than which none is older, claims it now with one attempt more and nothing else changed, or says there is none exactly when there is none; an error changes nothing |
| RequestQueue.RequestTable.CompleteRequest | apps/worker/src/queue.ts:72-92 | completes by id whatever the status, with the assessment and the time, and changes no other row or field |
| RequestQueue.RequestTable.FailRequest | apps/worker/src/queue.ts:145-170 | requeues exactly when the failure is retryable and the row read has attempts left, a missing row counting as none left; a requeued row loses its claim and its end, a failed one ends now, and the error is kept to two thousand characters |
| RequestQueue.RequestTable.ReclaimStaleRequests | apps/worker/src/queue.ts:217-256 | a claim older than the minutes given goes back to the queue if it has attempts left and is failed if not, each counted apart; no other row changes and no claim is stale afterwards |
| QueueProtocol.InvStep | apps/worker/src/queue.ts:23-256 | every statement, timer, death, cancellation and sweep keeps the timed invariant that ties each waiting worker to its own claim |
| QueueTheorems.OneOwnerIffBookkeepingFits | apps/worker/src/queue.ts:172-191 | over every interleaving no request has two waiting workers, if and only if claim-to-timer plus run plus settlement fits in ninety minutes, with or without lost replies |
| QueueTheorems.ReclaimSparesWaiters | apps/worker/src/queue.ts:217-256 | neither reclaim statement changes a request whose worker is still waiting on it |
| QueueTheorems.SettlingLandsOnOwnClaim | apps/worker/src/queue.ts:72-170 | the unguarded completion and failure only ever land on the claim their worker made, and a failure's two statements decide as one |
| QueueTheorems.SettledIffFitsAndHeard | apps/worker/src/queue.ts:77-92 | terminal statuses are absorbing over every run, if and only if the bookkeeping fits and a statement reported as failed had no effect |
| QueueTheorems.RowStep | apps/worker/src/queue.ts:49-253 | every step leaves a row alone, creates it, removes it or lowers a rank built from attempts left and status |
| QueueTheorems.AtMostSixChanges | apps/worker/src/queue.ts:49-253 | one request changes hands at most six times in any run in which the bookkeeping fits and no reply is lost |
| QueueTheorems.AtMostThreeClaims | apps/worker/src/queue.ts:49-53 | while the bookkeeping fits one request is claimed at most three times, and a queued one fewer than three |
| QueueTheorems.AttemptsAreClaims | apps/worker/src/queue.ts:49-53 | over any run at all a request's counter is the number of times it was claimed |
| QueueTheorems.ThreeClaimsIffBookkeepingFits | apps/worker/src/queue.ts:145-191 | no run claims a request a fourth time, if and only if the bookkeeping fits |
| QueueTheorems.TimedOutWorkerStops | apps/worker/src/main.ts:407-421 | a process whose run outlasted its timer begins no further claim, once its failure has been written |
| StuckWindow.Sweeper.Run | apps/worker/src/monitoring.ts:553-700 | the sweep over one page leaves the counts, the pending rows and the audit facts that the specification of one sweep says, and reports how many it produced |
| WindowOutcome.PageIsOfPending | apps/worker/src/monitoring.ts:560-604 | the page is of pending rows, as many as the limit lets |
| WindowOutcome.PageInOrder | apps/worker/src/monitoring.ts:560-604 | rows given up on and not recovered are last, and either kind is in order of age |
| WindowOutcome.RowLeftAlone | apps/worker/src/monitoring.ts:606-612 | a row off the page, failed three times, or that comes to nothing, is as it was |
| WindowOutcome.RowProduced | apps/worker/src/monitoring.ts:613-642 | a row that produces leaves with its count forgotten, and is recovered if it had been given up on and that is written down |
| WindowOutcome.RowThrew | apps/worker/src/monitoring.ts:645-689 | a row that throws has one failure more, and is given up on at the third if that is written down |
| WindowOutcome.ProductionIsOfRows | apps/worker/src/monitoring.ts:605-645 | what is reported is how many of the page were produced for |
| StuckWindow.Window.Failed | apps/worker/src/stuck-window.ts:36-54 | a failure adds one to its own row's count and returns it |
| SweepFairness.MissedPage | apps/worker/src/monitoring.ts:560-604 | a page that misses a row is full, and made of rows ahead of it |
| SweepFairness.RowsAreIndependent | apps/worker/src/monitoring.ts:606-689 | what a sweep does to one row depends on that row and its own outcome alone |
| SweepFairness.GivingUpSortsLastIff | apps/worker/src/monitoring.ts:593-687 | a third failure leaves a row stuck, and sorted last exactly when that is on record and no recovery is |
| SweepFairness.ProducingForgives | apps/worker/src/monitoring.ts:606-642 | a row that produces leaves the list with its count forgotten, and is still sorted last exactly when its recovery went unrecorded |
| SweepFairness.ProducedInTime | apps/worker/src/monitoring.ts:532-700 | behind p rows that can never succeed a row that would is produced within floor(3p/limit)+1 sweeps, and within floor(3p/(limit-s))+1 when s more can hold a place for ever |
| SweepFairness.ThreeTries | apps/worker/src/stuck-window.ts:36-54 | within one process life a row that never succeeds throws at most three times |
| SweepFairness.FrozenIffPageStuck | apps/worker/src/report.ts:346-391 | with no row arriving or leaving, a sweep can never change anything again, whatever happens, exactly when its whole page is stuck rows |
| SweepFairness.ShutOutIff | apps/worker/src/report.ts:346-391 | however many rows arrive, none of them and none that waits is tried again, exactly when the page is full of stuck rows that are not sorted last |
| SweepFairness.RecoveredReportJamsTheWindow | apps/worker/src/report.ts:346-440 | a report given up on, recovered and failing again keeps a one-row window from the report behind it for the life of the process |
| OrphanAudit.TwoSpellingsAgree | packages/governance/src/retention.ts:155-200 | the join the sweep reads and the two sets a page reads keep the same orphans in the same order, where both read a row's path alike |
| OrphanAudit.ReadersAgreeIff | packages/governance/src/retention.ts:143-182 | the query and the code read the same path from a row exactly when its stored path is not empty |
| OrphanAudit.SpellingsAgreeIff | packages/governance/src/retention.ts:143-200 | the two backlogs are the same on every log of some rows exactly when each recovery and orphan of them is read alike, as they are wherever no stored path is empty |
| OrphanAudit.EmptyPathDivides | packages/governance/src/retention.ts:143-182 | an orphan with an empty stored path that the query keeps and the page does not |
| OrphanAudit.RecoveriesTakeOut | packages/governance/src/retention.ts:155-173 | appending recoveries removes from the backlog exactly the orphans they resolve and leaves the rest in order |
| OrphanAudit.OrphansJoin | packages/governance/src/retention.ts:155-173 | appended orphans nothing resolves yet join the end of the backlog |
| EvidenceStore.EvidenceTables.UploadAll | apps/worker/src/persist.ts:198-204 | stores up to the first artefact with no body or a refused upload, names that error, and leaves what it stored |
| EvidenceStore.EvidenceTables.LinkFindings | apps/worker/src/persist.ts:319-352 | links every citation, or throws at the first finding or join the database refuses or the first citation of nothing this run stored, whichever comes first, and names which it was |
| EvidenceStore.EvidenceTables.CleanUp | apps/worker/src/persist.ts:436-475 | removes what the store will give up and records the rest, a refused record replacing nothing |
| EvidenceStore.EvidenceTables.Transact | apps/worker/src/persist.ts:206-418 | commits exactly when the application is still authorised, every statement works and nothing dangles; otherwise changes no row and throws the first error in the code's order, statement by statement |
| EvidenceStore.EvidenceTables.PersistOutcome | apps/worker/src/persist.ts:186-477 | succeeds exactly when every body, upload and statement worked, the application is still authorised and nothing dangles; otherwise no row changes, the store and log are as the clean-up leaves them, and the error is the one thrown |
| EvidenceStore.PersistsIff | apps/worker/src/persist.ts:186-417 | a run is written down exactly when every body, upload and statement works, the application is authorised and every citation stands |
| EvidenceStore.CitationFineIff | apps/worker/src/persist.ts:340-352 | a citation stands when it names an artefact of the run and its join row is taken |
| EvidenceStore.PersistedIsWritten | apps/worker/src/persist.ts:294-317 | each artefact gets its own row with its own assessment, path, hash and deadline, each path its bytes, and nothing else of the tables changes |
| EvidenceStore.PersistedLinks | apps/worker/src/persist.ts:319-352 | the joins added are of each finding to the row of the last artefact carrying the id it cites, and no others |
| EvidenceStore.UnpersistedChangesNoRow | apps/worker/src/persist.ts:198-443 | otherwise no row changes and the store keeps what was uploaded before the first bad upload, less what the clean-up removed |
| EvidenceStore.RolledBackLogs | apps/worker/src/persist.ts:436-475 | the clean-up logs one orphan for each path that stayed and was noted, in the order they were stored |
| EvidenceStore.FirstBadUpload | apps/worker/src/persist.ts:198-204 | the error of the uploads is of the first artefact with no body, or with its upload refused |
| EvidenceStore.FirstBadStatement | apps/worker/src/persist.ts:206-293 | past them it is the withdrawn authorisation's exactly when that is what failed first, and a rollback that fails throws for itself |
| EvidenceStore.FirstBadFinding | apps/worker/src/persist.ts:319-352 | among the findings it is of the first refused, or of the first citation that names nothing or is refused, and names that citation |
| EvidenceStore.IdMapAnswers | apps/worker/src/persist.ts:294-317 | an engine's evidence id maps to the row of the last artefact carrying it, and to none exactly when no artefact does |
| EvidenceStore.LinksAreCitations | apps/worker/src/persist.ts:340-352 | a finding is joined to a row exactly when it cites an artefact stored as that row |
| EvidenceStore.RemovalsRemove | apps/worker/src/persist.ts:437-443 | a path is left in the store by the clean-up exactly when it was there and no removal of it worked |
| EvidenceStore.PersistKeepsBacked | apps/worker/src/persist.ts:189-204 | whatever is answered, every join row still has its evidence row and every evidence row its bytes |
| EvidenceStore.PersistKeepsSound | apps/worker/src/persist.ts:186-477 | and no two rows share bytes, and the log names no live row's path or id |
| EvidenceStore.RolledBackLeavesATrail | apps/worker/src/persist.ts:418-476 | a lost transaction leaves the tables alone; an uploaded byte is still held only if its own removal was refused, and then is on record with its path unless that very record was refused |
| RetentionSweep.SweepRetention | apps/worker/src/governance.ts:230-477 | deletion pass, retry pass and the five counts are those of the specification up to the call that ends the sweep, for every answer of database and store; it throws exactly when such a call fails |
| RetentionSweep.FinishedIsSwept | apps/worker/src/governance.ts:230-477 | a sweep no failed `begin`, `rollback`, orphan read or count ends is the whole of both passes |
| RetentionSweep.DueForDeletion | packages/governance/src/retention.ts:71-76 | a row of the page is kept exactly when it is strictly past its deadline |
| RetentionOutcome.DueInOrder | packages/governance/src/retention.ts:71-76 | due rows keep the page's order, each as often as it is there |
| RetentionOutcome.OneDue | packages/governance/src/retention.ts:71-76 | a row is due exactly when its deadline is strictly before now |
| RetentionOutcome.FinishesIff | apps/worker/src/governance.ts:279-477 | what ends a sweep is a `begin`, a rollback after a refused deletion, the reading of the orphans or the count, and nothing else |
| RetentionOutcome.SweepIsTwoPasses | apps/worker/src/governance.ts:230-477 | a finished sweep is the first pass, then the first `limit` of what is unresolved asked for again, then the count over the whole log |
| RetentionOutcome.EndedSweep | apps/worker/src/governance.ts:230-477 | an ended one has done the rows before the call that ended it, and both passes if only the count failed |
| RetentionOutcome.FirstPassRows | apps/worker/src/governance.ts:279-296 | a row goes exactly when its deletion works, its joins with it, and no other row or join does |
| RetentionOutcome.FirstPassBytes | apps/worker/src/governance.ts:297-322 | bytes go exactly with a deleted row of theirs whose removal works |
| RetentionOutcome.FirstPassRecords | apps/worker/src/governance.ts:282-295 | each deletion record carries its own row's id, hash and deadline, after those of the deletions before it |
| RetentionOutcome.FirstPassOrphans | apps/worker/src/governance.ts:322-359 | the log gains one orphan with its row's id and path for each row whose bytes stayed and whose record was taken, in order |
| RetentionOutcome.FirstPassCounts | apps/worker/src/governance.ts:317-362 | deleted and orphaned are counted by what became of each row's bytes, and the other three counts are untouched |
| RetentionOutcome.SecondPassBytes | apps/worker/src/governance.ts:385-462 | asked again, bytes go exactly where a readable orphan's removal works |
| RetentionOutcome.SecondPassRecoveries | apps/worker/src/governance.ts:420-450 | the log gains one recovery, with its orphan's row and path, for each removal that worked and was recorded, in order |
| RetentionOutcome.SecondPassCounts | apps/worker/src/governance.ts:385-462 | recovered and unreadable are counted orphan by orphan, and the first pass's counts stand |
| RetentionOutcome.InBacklogIff | packages/governance/src/retention.ts:155-173 | an orphan is unresolved exactly when no recovery is of its path or of its evidence row |
| RetentionOutcome.BacklogInOrder | packages/governance/src/retention.ts:155-173 | orphans stand in the backlog in the order of the log, each as often as it does there |
| RetentionSweep.DeletionsAreRecorded | apps/worker/src/governance.ts:279-370 | each row that goes has its own deletion record, in order, no other row goes, and the log gains the recorded orphans alone |
| RetentionSweep.DeletionsAreCounted | apps/worker/src/governance.ts:317-362 | deleted counts the rows whose bytes went, orphaned those whose bytes stayed, whether or not that could be recorded |
| RetentionSweep.CountsMatchRows | apps/worker/src/governance.ts:317-362 | the two add up to the rows that went, and recorded orphans fall short of the orphans only by refused records |
| RetentionSweep.BytesGoWithTheirRow | apps/worker/src/governance.ts:297-322 | the first pass removes a path exactly when a row of it went and its removal worked |
| RetentionSweep.BytesFollowTheirRow | apps/worker/src/governance.ts:297-359 | a deleted row's bytes are gone, or on record, or both the removal and its record were refused |
| RetentionSweep.RetriesAreCounted | apps/worker/src/governance.ts:385-462 | recovered counts the recoveries written, unreadable the rows with no path, and the log gains the recoveries alone |
| RetentionSweep.RetriesRemove | apps/worker/src/governance.ts:420-460 | the retry pass removes exactly the orphaned paths the store now gives up, recorded or not |
| RetentionSweep.RecoveredBytesAreGone | apps/worker/src/governance.ts:420-450 | no recovery is claimed for bytes that are still held |
| RetentionSweep.SweepKeepsSound | apps/worker/src/governance.ts:230-477 | after any sweep every row left has its bytes, and the log names none of them |
| RetentionSweep.OutstandingBalancesIff | apps/worker/src/governance.ts:464-477 | given the answers: outstanding after plus recovered equals outstanding before plus newly recorded, exactly when every orphan resolved by this sweep's recoveries was itself recovered by it |
| RetentionSweep.AlwaysBalancesIff | apps/worker/src/governance.ts:464-477 | the count balances whatever is answered, exactly when no readable orphan among the first `limit` of the log's backlog would resolve another row of it |
| RetentionSweep.OverlappingSweepsDoubleTheOrphan | apps/worker/src/governance.ts:279-370 | two sweeps that both read a row before either deletes it leave a sound log with two records of one orphan, and a sweep of that log need not balance |
| RetentionSweep.YieldingStoreClearsTheBacklog | apps/worker/src/governance.ts:385-462 | once the store yields, one pass clears a readable backlog that fits the limit, and counts it |
| RetentionSweep.RetryIsJammedIff | apps/worker/src/governance.ts:385-419 | with every removal working, nothing is recovered exactly when the first `limit` of the backlog have no readable path, and then the next pass reads the same rows |
| EvidenceProtocol.InvStep | apps/worker/src/persist.ts:198-475 | every call of any persist or sweep, its failure, a sweep's own failing `begin`, `rollback` or read, and a process's death keep the invariant over paths, rows, audit rows and calls in flight |
| EvidenceTheorems.RowsAreBacked | apps/worker/src/governance.ts:281-320 | in every reachable state each row's path holds bytes, no two rows share one, and nothing the log names is cited |
| EvidenceTheorems.OnlyUncitedBytesGo | apps/worker/src/governance.ts:385-462 | no step of any run, the retry pass included, removes bytes a row cites before or after it |
| EvidenceTheorems.LostCommitUnbacksRows | apps/worker/src/persist.ts:416-443 | why a commit that throws must not have taken effect: its clean-up would remove what it committed |
| EvidenceTheorems.BooksStep | apps/worker/src/persist.ts:418-476 | with audit writes and a persist's rollback working and nobody dying, every path whose persist began its transaction stays cited, gone, on record or in hand |
| EvidenceTheorems.FailedUploadStrands | apps/worker/src/persist.ts:198-206 | when an upload, the `begin` or the `rollback` itself fails, every path the run has stored is known to no row, no audit row and no call in flight |
| EvidenceTheorems.StrandedForGood | apps/worker/src/persist.ts:198-206 | and no later step of anything ever changes that |
| EvidenceTheorems.BytesAccountedIffBegun | apps/worker/src/persist.ts:198-475 | once nothing is in flight, held bytes are cited or on record exactly when their persist began its transaction, and stranded exactly when it did not |
| JsonText.StringRoundTrip | packages/badge/src/payload.ts:141-146 | every string, lone surrogates and control characters included, is read back exactly from what is printed |
| JsonText.NumberRoundTrip | packages/badge/src/payload.ts:141-146 | every number of tenths is read back exactly from its printed form |
| Utf8.EncodingRoundTrip | packages/badge/src/sign.ts:19-27 | the bytes handed to the signature determine the text |
| Utf8.EncodesByTheTable | packages/badge/src/sign.ts:19-27 | unit by unit the bytes are those of the table of RFC 3629, shortest form and lead and trailing bits included, and a lone surrogate is U+FFFD |
| BadgePayload.Canonicalise | packages/badge/src/payload.ts:87-139 | gives a text exactly when the keys are the signed ones, none is absent or null, the version is 1, the score is finite and in range and the dates can be read |
| CanonicalText.CanonicalIsShortest | packages/badge/src/payload.ts:62-146 | the canonical text is the only one of its length, and the shortest, of all well-formed texts that read as the same keys in the same order with the same values |
| CanonicalText.StringIsShortest | packages/badge/src/payload.ts:141-146 | a string is printed by the shortest escapes that read as it, hexadecimal digits in lower case |
| CanonicalText.NumberIsShortest | packages/badge/src/payload.ts:141-146 | a number is printed by the shortest text that reads as it |
| CanonicalText.WholeNumbersHaveNoPoint | packages/badge/src/payload.ts:141-146 | a whole number has no point in it |
| CanonicalText.KeysInOrder | packages/badge/src/payload.ts:64-77 | the text has the twelve published keys in the published order and nothing else |
| CanonicalText.ValuesAreTheirs | packages/badge/src/payload.ts:134-146 | text and truth are read as they were, a number as the nearest in tenths, away from nothing on a tie |
| CanonicalText.MissingIsFirst | packages/badge/src/payload.ts:88-94 | the key complained of is the first that is absent or null |
| CanonicalText.RefusedInOrder | packages/badge/src/payload.ts:95-132 | then other fields, all named, then another version, then a score that is no number from 0 to 100, then the dates |
| CanonicalText.BadDateIsFirst | packages/badge/src/payload.ts:124-132 | the date complained of is the first of the three that cannot be read |
| BadgePayload.CanonicalTextReadsBack | packages/badge/src/payload.ts:62-146 | a reader told neither the keys nor their order recovers every field from the text |
| BadgePayload.ParsingGivesBackThePayload | packages/badge/src/payload.ts:62-146 | the payload read from an accepted payload's text is that payload, its numbers to one decimal |
| BadgePayload.BytesDetermineThePayload | packages/badge/src/payload.ts:62-146 | equal bytes mean equal strings, booleans and version, and numbers equal to one decimal |
| BadgePayload.CanonicalFormIsStable | packages/badge/src/payload.ts:141-146 | printing the payload that was read prints the same text |
| BadgeKeys.BuildKeySet | packages/badge/src/keys.ts:118-122 | the retired keys with the active one put first unless its id is there already |
| BadgeKeys.ActiveKeyPublishedIff | packages/badge/src/keys.ts:118-122 | the active key is what its id finds exactly when no different retired key carries that id |
| BadgeKeys.PublicJwksFrom | packages/badge/src/keys.ts:198-221 | every entry is either a key or counted unusable, and entries that carried a private part are named |
| BadgeKeys.SiftedInOrder | packages/badge/src/keys.ts:198-221 | a list of entries comes to what each comes to, in order |
| BadgeKeys.OneEntry | packages/badge/src/keys.ts:145-172 | an entry is a key exactly when it says Ed25519 and has an `x` and an id, and the key is those |
| BadgeKeys.PrivateIsNamed | packages/badge/src/keys.ts:145-221 | an entry is named as carrying a private part exactly when it has a `d` with anything in it, by its own id |
| BadgeKeys.LoadPublishedKeys | packages/badge/src/keys.ts:262-278 | the two variables merged, first mention of an id winning |
| BadgeKeys.OneMorePublished | packages/badge/src/keys.ts:262-278 | a further key is published, last, unless its id has been mentioned |
| BadgeKeys.PastedKeyComesBack | packages/badge/src/keys.ts:145-221 | a loaded key's public half, pasted as one entry, is read back unchanged |
| BadgeKeys.FirstMentionsAnswerTheSame | packages/badge/src/keys.ts:269-272 | dropping later mentions changes which key no id finds |
| BadgeKeys.PrivatePartsNeverPublished | packages/badge/src/keys.ts:145-172 | no published key carries a field that is not public, whatever was pasted in |
| BadgeSigning.VerifyBadge | packages/badge/src/sign.ts:76-205 | its verdict is that of the specification, and nothing is listed exactly when the badge is within its validity |
| BadgeSigning.EachRefusalIsItsOwn | packages/badge/src/sign.ts:83-136 | a malformed payload, no published keys and an unknown key each have one failure and one sentence, their own |
| BadgeSigning.NamedRefusals | packages/badge/src/sign.ts:138-179 | so have a key that cannot be read and a signature that does not match |
| BadgeSigning.GenuineIsJudgedByDates | packages/badge/src/sign.ts:181-231 | a genuine badge is expired unless its expiry is after now, and issued in the future unless its issue is not; both are listed, the sentence says expiry first, and otherwise confirms and discloses |
| BadgeSigning.SignatureDoesNotAge | packages/badge/src/sign.ts:166-179 | whether the signature verifies does not depend on the time asked |
| BadgeSigning.InForceIff | packages/badge/src/sign.ts:114-195 | within validity exactly when the first key with that id reads and verifies it and issued at or before now and before expiry |
| BadgeSigning.OurFaultIsOurs | packages/badge/src/sign.ts:114-164 | no keys or an unreadable one is said as our fault and never as the badge's, and nothing else is |
| BadgeSigning.SentenceMatchesFailures | packages/badge/src/sign.ts:207-231 | the sentence confirms exactly when nothing is listed, and blames exactly when something listed does |
| BadgeSigning.FreshKeysChangeNothing | packages/badge/src/sign.ts:127-137 | keys under fresh ids, before or after, change no verdict of an id already there |
| BadgeSigning.HistoryKeepsVerifying | packages/badge/src/keys.ts:118-122 | after any sequence of signings and rotations every badge ever signed verifies, at any time, under the set published now |
| BadgeSigning.PublishedSetAgrees | packages/badge/src/keys.ts:262-278 | a badge's verdict under the set merged from the two variables is its verdict under the two sets back to back |
| Calendar.ClosedFormulaCounts | apps/worker/src/badge.ts:96-100 | the closed formula for a month's first day is the count of months from January 1970, before it and after |
| Calendar.TermIsMonthLengths | apps/worker/src/badge.ts:96-100 | a term is exactly the lengths of consecutive months starting with its own, month-end overflow included |
| Calendar.TermDays | apps/worker/src/badge.ts:96-100 | three months are 89 to 92 days; twelve are 366 with a 29 February in them and 365 without |
| Calendar.TermAcceptedIff | supabase/migrations/20260822094000_badges.sql:62-64 | the table accepts the computed term exactly when it is not twelve months from a 29 February |
| BadgeTerm.ValidityMonthsFor | apps/worker/src/badge.ts:246-302 | grants the plan's months exactly when the rubric is known, publishes a usable maximum and the months are within it |
| BadgeTerm.TermOrReason | apps/worker/src/badge.ts:246-302 | twelve months or three by the plan, or which of the four reasons there is no term, in the order they are asked |
| BadgeTerm.GrantedTerms | apps/worker/src/badge.ts:96-302 | a granted term is whole days, 89 to 92 or 365 to 366, and accepted except on a 29 February |
| BadgeLifecycle.BadgeTable.SweepBadgeLifecycle | apps/worker/src/badge.ts:593-791 | the four statements' table, and counts that account for every badge that changed status |
| BadgeLifecycle.ActiveOutcome | apps/worker/src/badge.ts:593-756 | an active badge is left as it is exactly when it is in its term, authorised, and paid for, live, trialing or in no trouble; otherwise it expires, or is suspended now for the lapse or the withdrawal, by the first that fails |
| BadgeLifecycle.OtherOutcome | apps/worker/src/badge.ts:757-780 | any other badge is left as it is, but for one down for a withdrawal that is authorised again and in its term |
| BadgeLifecycle.ActiveMeansCurrent | apps/worker/src/badge.ts:593-791 | after one sweep an active badge is unexpired and authorised |
| BadgeLifecycle.SweepSettles | apps/worker/src/badge.ts:593-791 | a third sweep changes nothing the second left, and the second nothing exactly when no lapsed badge was just restored from a withdrawal |
| BadgeLifecycle.WhoMayChangeWhat | apps/worker/src/monitoring.ts:1069-1112 | which statement may suspend, with which sentence, and which may lift it |
| BadgeLifecycle.LiftedExactly | apps/worker/src/badge.ts:757-780 | a statement changes a suspended badge exactly when it is a re-authorisation that read it authorised and in its term, or its own liveness restore after an outage |
| BadgeLifecycle.SettledIsNeverTouched | apps/worker/src/badge.ts:567-591 | over any interleaving an expired or revoked badge, or one down for a lapse or a regression, is never changed |
| BadgeLifecycle.LapseAndRegressionStick | apps/worker/src/badge.ts:567-591 | the sentences for a lapse and for a regression are ones no restorer matches |
| BadgeLifecycle.FirstReasonStands | apps/worker/src/monitoring.ts:469-480 | a suspension keeps its date and sentence until a statement entitled to lift it does |
| BadgeLifecycle.ExpiryLastsIff | apps/worker/src/monitoring.ts:1069-1112 | over any later interleaving no badge comes back to active past the date of an expiry, exactly when none was down for an outage past that date |
| Delivery.Batch | packages/api/src/push.ts:60-66 | the index loop gives the successive slices |
| Delivery.DeliveryTables.SweepAlertEmail | apps/worker/src/email.ts:129-236 | the tables and tally after a page are those of the specification, for every answer of the provider |
| Delivery.DeliveryTables.SweepAlertPush | apps/worker/src/push.ts:101-227 | likewise for batches, thrown senders, short replies and tickets |
| Delivery.DeliveryTables.SweepUndeliveredNotices | apps/worker/src/notices.ts:171-213 | each overdue notice whose write works is recorded once, in order |
| DeliveryTheorems.BatchesPartition | packages/api/src/push.ts:60-66 | back to back the batches are the list, none is empty or over size, and only the last may fall short |
| DeliveryTheorems.EmailSweepConserves | apps/worker/src/email.ts:152-236 | attempted and deferred are the page, sent and failed are the attempted |
| DeliveryOutcome.EmailRecord | apps/worker/src/email.ts:175-203 | a row is recorded sent or failed by its own answer, and not at all if the answer was transient before its last day |
| DeliveryOutcome.EmailElsewhere | apps/worker/src/email.ts:152-236 | no other record is made or changed, nor any device or notice |
| DeliveryOutcome.EmailStamps | apps/worker/src/email.ts:226-235 | an alert is stamped exactly when a message about it is taken, and keeps the stamp and channel it had |
| DeliveryOutcome.EmailSuppresses | apps/worker/src/email.ts:214-224 | an address is suppressed exactly when it was or a message to it bounced for good |
| DeliveryOutcome.EmailCounts | apps/worker/src/email.ts:175-224 | each of the six counts is of the rows answered that way |
| DeliveryOutcome.BatchOfRow | packages/api/src/push.ts:60-66 | row k is row k % 100 of batch k / 100 |
| DeliveryOutcome.PushRecord | apps/worker/src/push.ts:144-226 | a row's record is its own ticket's, and where its batch was not fully answered it has none before its last day |
| DeliveryOutcome.PushStamps | apps/worker/src/push.ts:190-226 | an alert is stamped, and push credited, exactly when some ticket of its own says taken |
| DeliveryOutcome.BatchCounts | apps/worker/src/push.ts:144-226 | a batch's counts are of its tickets where it was fully answered, and otherwise of its rows by age |
| DeliveryOutcome.NoticesWritten | apps/worker/src/notices.ts:171-213 | the log gains the notices whose writes work, in order, and the count is of them |
| DeliveryTheorems.PushSweepConserves | apps/worker/src/push.ts:117-227 | attempted, deferred and abandoned are the page, delivered and failed are the attempted |
| DeliveryTheorems.EmailTallyIsExact | apps/worker/src/email.ts:152-236 | sent, suppressed, deferred and abandoned each count the rows answered that way |
| DeliveryTheorems.ChunkTallyIsExact | apps/worker/src/push.ts:144-226 | a fully answered batch counts its tickets, and any other counts nothing attempted and gives up on exactly the rows about to age out |
| DeliveryTheorems.DeadDevicesAreDisabled | apps/worker/src/push.ts:190-214 | a device is disabled exactly when its own ticket in a fully answered batch says it is gone |
| DeliveryTheorems.EveryRowGetsItsOwnTicket | apps/worker/src/push.ts:144-226 | each row's record is its own ticket's, and in a batch not fully answered it is a failure exactly when the row is about to age out, and otherwise nothing |
| DeliveryTheorems.OwnTicket | apps/worker/src/push.ts:144-226 | a batch not fully answered marks nothing delivered, and no record is revised |
| DeliveryTheorems.EveryRowGetsItsOwnAnswer | apps/worker/src/email.ts:175-215 | each row's record is its own answer's, and a row put off has none |
| DeliveryTheorems.SuppressedIsWrittenToIff | apps/worker/src/email.ts:152-226 | the call made for a row of a page goes to its address, and that address is suppressed by then exactly when an earlier row of that page hard-bounced there |
| DeliveryTheorems.SuppressionHeededIff | apps/worker/src/email.ts:152-226 | no sweep of a page writes to a suppressed address, whatever is answered, exactly when no two of its rows share an address |
| DeliveryTheorems.EveryRowIsSentTo | apps/worker/src/email.ts:152-172 | one message is sent for each row of a page, in order, to its own address |
| DeliveryTheorems.SecondNoticeIsSentAnyway | apps/worker/src/email.ts:152-226 | a page of two notices to one person, the first of which bounces and the second of which is sent |
| WriteOff.RecordedBeforeItIsDropped | apps/worker/src/email.ts:56-190 | with at most limit times k rows as old or older ever pending in the k sweeps of its last day, a row is on record before the window drops it, whatever the provider answers |
| WriteOff.OneTooManyIsDropped | apps/worker/src/email.ts:56-190 | with one row more, a provider that stays down leaves it with no record, for every limit and every k |
| DeliveryRuns.StepKeepsWorldTrue | apps/worker/src/notices.ts:106-213 | for any number of sweeps of any kind, every reading, answer and write keeps each stamp true to the messages taken, and no record is revised |
| DeliveryRuns.RecordsAgree | apps/worker/src/email.ts:204-235 | with each kind alone: stamped delivered exactly when some record says sent, no message accepted twice for one recipient and channel, each notice "not given" at most once |
| DeliveryRuns.OnceEachIffFresh | apps/worker/src/email.ts:152-236 | over one run of any number of sweeps, nothing is taken twice or noted twice and every message taken is on record as sent, exactly when none is taken for a row, or noted, that was recorded since its sweep's reading |
| DeliveryRuns.RecordsAgreeIff | apps/worker/src/main.ts:445-473 | the records agree over every run exactly when no sweep starts beside another of its kind |
| DeliveryRuns.SentTwice | apps/worker/src/main.ts:445-451 | otherwise: two sweeps that both read a row before either writes, and one person sent the notice twice |
| DeliveryRuns.NotGivenIsFinal | apps/worker/src/notices.ts:106-213 | where answers come in time an alert recorded as never given is never delivered later, and no record is revised |
| DeliveryRuns.NotGivenIsFinalIff | apps/worker/src/notices.ts:106-213 | over every interleaving of any number of sweeps no alert is both "not given" and delivered, exactly when age at the reading plus time to the answer is within the window, the reading's own cut being inside it |
| DeliveryRuns.OvertakenRun | apps/worker/src/main.ts:510-518 | otherwise: an alert read at the last moment, noted as never given and then delivered |
| DeliveryRuns.EmailSweepIsItsRows | apps/worker/src/email.ts:152-236 | the email sweep is its rows answered one after another by the same code as the steps of a run |
| DeliveryRuns.PushBatchIsItsRows | apps/worker/src/push.ts:144-226 | likewise a push batch and its tickets |
| Assurance.NoFalseTick | packages/assurance/src/index.ts:324-437 | ticked exactly when it applies, is covered by rubric and run, has no reason of its own, nothing was found and no gate failed |
| Assurance.QuestionsAsPublished | packages/assurance/src/index.ts:145-278 | which criteria each of the nine questions answers for |
| Assurance.TickedIff | packages/assurance/src/index.ts:145-437 | each question is ticked exactly when nothing is found against it, its gate is open, its criteria are all scored and reached, and neither declaration nor depth rules it out; it shows a problem exactly when something is found or its gate is shut |
| Assurance.WhyNotTested | packages/assurance/src/index.ts:353-360 | an unanswered question says which reason comes first: rubric, run, then what rules it out |
| Assurance.WhatIsBeside | packages/assurance/src/index.ts:397-420 | a problem beside a gap says which gap comes first: declaration, rubric, run, then depth |
| Assurance.WorstIsFirst | packages/assurance/src/index.ts:362-370 | nothing milder is shown before anything worse |
| Assurance.HeadlineCounts | packages/assurance/src/index.ts:471-479 | the headline's numbers are of the questions answered and of those that showed a problem |
| Assurance.FoundIff | packages/assurance/src/index.ts:362-414 | a problem is shown exactly when a non-info finding matches or the gate failed, whatever the owner declared |
| Assurance.BadNewsNeverTicks | packages/assurance/src/index.ts:324-437 | more findings, gates or gaps, or less rubric, never makes a tick and never hides a finding |
| Assurance.ShownAreMatching | packages/assurance/src/index.ts:362-370 | shown findings are the matching ones, worst first, in the order given within a severity |
| Assurance.ObservationsChangeNothing | packages/assurance/src/index.ts:362-370 | an info finding added anywhere changes no line |
| Assurance.AnswersExplainThemselves | packages/assurance/src/index.ts:397-436 | a reason is given exactly when not tested, and a coverage gap beside a finding always is |
| Assurance.GateOnlyIsTrueIff | packages/assurance/src/index.ts:404-412 | the gate-only sentence is true exactly when no finding beyond an observation is against the claim's criteria, and none is when findings are against the rubric |
| Assurance.GateOnlyCanMislead | packages/assurance/src/index.ts:404-412 | a finding outside the rubric is shown under that sentence though no gate failed |
| Assurance.NoFindingIsShownTwice | packages/assurance/src/index.ts:145-278 | no finding appears under two questions |
| Assurance.HeadlineTellsTheTruth | packages/assurance/src/index.ts:471-479 | the headline says nothing was found exactly when no question has a match or a failed gate |
| Reassessment.Scheduler.SweepScheduledReassessments | apps/worker/src/monitoring.ts:753-868 | stamp and request of each due application are made together or not at all, never beside a request that is live, and the count is the requests made |
| ReassessmentOutcome.DueIff | apps/worker/src/monitoring.ts:762-812 | an application is due exactly when it is authorised, has no live request, and was last assessed or stamped thirty days ago, or fourteen on an organisation's plan |
| ReassessmentOutcome.NeverStarted | apps/worker/src/monitoring.ts:803-807 | one nobody has assessed is not |
| ReassessmentOutcome.SweepQueues | apps/worker/src/monitoring.ts:818-868 | each row that goes stamps its own application and makes its own request at its own time, in the page's order, and nothing else changes |
| Reassessment.CadenceIsAFloor | apps/worker/src/monitoring.ts:753-868 | one process behind its guard: over any run, sweeps that throw and deaths included, two requests for one application are at least the plan's cadence apart, less only the clock's skew |
| Reassessment.SpacedIffUndisturbed | apps/worker/src/monitoring.ts:753-868 | over one run of any number of sweeps, requests are a cadence apart exactly when none is made where another has been since its sweep's reading, each being made within its cadence of the reading |
| Reassessment.SpacedIffNoneEndsMeanwhile | supabase/migrations/20260822130000_assessment_requests.sql:51-53 | for any setting and any number of processes requests are a cadence apart as long as no request made after a sweep's reading stops being live before that sweep comes to its application, and, each made within its cadence of the reading, only so long |
| Reassessment.OutlivedIsSpaced | supabase/migrations/20260822130000_assessment_requests.sql:51-53 | where a sweep takes less time than a request lives, the index alone keeps the cadence for any number of processes |
| Reassessment.RequestsAreLivesApart | supabase/migrations/20260822130000_assessment_requests.sql:51-53 | over any run two scheduled requests for one application are at least a request's shortest life apart |
| Reassessment.AloneAlways | apps/worker/src/main.ts:445-473 | behind the guard a process has at most one sweep in flight, and for a lone process nothing that sweep has still to queue was asked for since it read |
| Reassessment.AlwaysSpacedIff | apps/worker/src/main.ts:445-475 | over every run requests are a cadence apart exactly when there is no process, or one behind the guard, or a request lives longer than a sweep takes, or its life and the skew come to the longest cadence |
| Reassessment.AskedTwice | apps/worker/src/main.ts:445-475 | otherwise: two sweeps both read, the first one's request is made and ends, and the second's is made |
| SweepGuard.Guard.Once | apps/worker/src/main.ts:459-473 | a tick starts the only run of its name or changes nothing, and a name has at most one run unsettled |
| SweepGuard.Guard.Settled | apps/worker/src/main.ts:467-472 | settling frees that name and no other |
| SweepGuard.Guard.StuckSweep | apps/worker/src/main.ts:239-248 | none exactly when nothing is past fifteen minutes, and otherwise the longest running, first noted of equals |

## Left out

- The number of minutes in the reclaim sweep's sentence.
- Log lines, alert prose, notice wording and generated artwork; `because` in the notices sweep only words a row.
- Ed25519 itself, DER and JWK decoding and base64url: abstract functions, with signing and verifying correct for a matching pair as the one assumption.
- Date-string parsing: an abstract reader that may refuse; `Date` values outside the range of ECMA-262's TimeClip are not modelled.
- JSON printing of numbers that are not tenths: the score is printed to one decimal and the version is 1; a number in any other field, negative zero, and arrays or objects as field values are not modelled.
- Row-level security, pooling, and the text of the SQL: the tables, row locks and transactions the code relies on are modelled, with a commit atomic and a failed statement without effect except where `lostReplies` or `LostCommitUnbacksRows` says otherwise.
- History variables: `issued`, `stage`, `pathOf`, `begun`, `accepted`, `called` and `seen` are kept for the proofs alone; no column holds them.
- The window's `forget`, `resetReportFailureCounts` and the other seams for suites that share one process; a restart is a new window.
- Evidence paths and ids are fresh, and audit rows written before the path had its own column are either readable or `Unreadable`; how a path is read out of an old sentence is not modelled.
- EvidenceProtocol.InvStep: bytes whose row or record is lost by a process that dies between two calls are kept out of every row, and are not accounted for; the accounting theorems say so by requiring that nobody dies.
- RetentionSweep.SweepRetention: the year-old alerts it also deletes, and its rationed log lines, are not modelled.
- EvidenceStore.EvidenceTables.PersistOutcome: the assessment and stage rows are one answer, `opens`, and the cost and audit rows and the commit another, `commits`; the provenance column check and `recordUnattributedCost` are not modelled.
- QueueProtocol.InvStep: pausing for the spend cap is a choice not to claim, and a process that stops is not restarted under the same name.
- SweepFairness.ProducedInTime: ties in the queries' `order by` are resolved by position, and rows that arrive do not arrive ahead of the one watched.
- BadgeTerm.GrantedTerms: the database session is in UTC, and intervals of months clamp to the end of a shorter month.
- Issuing a badge (`issueBadgeFor`, `sweepBadgeIssuance`), expiry warnings and announcements; in particular that an application has at most one live badge is not claimed.
- Delivery.DeliveryTables.SweepAlertEmail: the pending queries' entitlement, preference and severity filters are the page's business, and a sweep that dies between a provider's answer and its record is not one of the runs.
- DeliveryRuns.RecordsAgree: the tickets of a push batch are answered row by row, and a provider's answer and its record are one step, so a process that dies between the two is not among the runs.
- Assurance.NoFalseTick: questions, limitations and sentences are constructors, not text.
- Reassessment.CadenceIsAFloor: each process takes its tick and its clock at one instant, the database's clock never goes back from one transaction to the next, and an application once in the table stays there. A request that becomes live again after it ended is one of the other requests of its application.
- `computeDrift`, `applyProbe`, the shared-cause judgement, rubric scoring, screening, spend caps, the deadline sweep, billing, the console, the web and mobile applications and the browser extension.
