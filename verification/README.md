# HL6 server: models and proofs

HL6 lets users claim subdomains and manage their DNS records. This project models the parts of the server that carry
protocols, invariants over whole runs, or round trips, and proves what they promise. Each class has the fields and the
methods of the Go code it stands for; its methods are proved against functions over plain values, and the lemmas are
about those functions and about all runs built from them. `dafny verify dfyconfig.toml` checks everything.

- **Suspension saga** (`Provider`, `Suspension`, `SuspensionLaws`, `SuspensionOutcome`, `RestoreLaws`,
  `CompensationLaws`, `UserSuspension`, `AuditService`).
  Provider calls, database statements and commits are numbered; an arbitrary predicate says which of them fail, and a
  call that fails changes nothing. A zone holds at most one record of each type, name and content, because creating a
  record first looks for it and adopts it. Deleting by an id that no record has succeeds.
- **Scan protocol** (`Exemption`, `ExemptionWorker`, `AuditDedup`, `Fetching`, `CleanHash`, `DecidedRules`, `ByteStrings`,
  `Utf8`, `Snippets`, `RuleEngine`, `RuleReports`, `AuditRuleEngine`, `AuditRuleValidation`). The grace period is a
  state machine whose events any number of workers and scans interleave. The clean-hash shortcut is proved about the
  rules of the modelled engine. Texts are byte strings, decoded into runes as Go does; lower-casing and regular
  expressions are parameters.
- **Authentication** (`AuthTokens`, `AuthRateLimit`). Consuming a token, hashing and applying it are separate steps;
  runs interleave the steps of any number of clients.
- **Credits** (`Ledger`, `Payments`, `PaymentRaces`, `Claims`). Amounts are signed 64-bit integers in tenths of a credit, with their
  overflow guards and, for the negation in refunds, their wrap-around.
- **Kernels** (`RateLimiter`, `LogSink`, `EscapeLike`, `PasswordHash`, `Base64`, `GroupIds`, `Strings`).

One database transaction is one step; unique indexes make an insert fail. Clocks, random salts, query orders and
outcomes of foreign calls are parameters.

## What does not hold as one might expect

- A failed suspension loses the ids of the records it re-creates. A later suspension then reports success and leaves
  these records live (`SuspensionLaws.RetrySparesRecreated`, at an input `SuspensionOutcome.RetryCanSpareARecord`;
  `SurvivesIffMissed` says exactly when).
- A record stored without an id and missing at the provider keeps its subdomain from being suspended
  (`SuspensionOutcome.SuspendSucceedsIff`).
- The rollback of a user-level suspension is refused for every subdomain, because it tests the status of copies loaded
  as active, so a failure in the middle leaves some suspended (`UserSuspension.AllOrNothingIff` says exactly when,
  `TwoSubdomainsOneSuspended` gives an input).
- The compensation of a failed restore deletes records that the restore found and adopted
  (`RestoreLaws.FailedRestoreIsCleanIff` says exactly when, `SparedRecordIsLost` gives a run).
- A completed exemption row exempts its pair in ordinary scans for ever, and a lost recheck task takes its subdomain
  out of scheduling for ever (`Exemption.FinalForever`, `ScheduledAgainIff`, `ATaskCanBeLost`).
- A recheck task of one rule enforces any other exempt-enabled rule it finds, without a grace period of that rule
  (`Exemption.OtherRuleWithoutGrace`).
- The clean-hash shortcut disagrees with full matching for rules that find something in some final URLs and not in
  others, for rules on a status code that responses have, and for rules on unreachable sites; the hash covers none of
  these (`CleanHash.AlwaysRightIffDecided` and `DecidedRules.DecidedIff` say exactly when, `RedirectGoesUnnoticed` gives
  an input).
- Lower-casing that changes lengths makes keyword matching slice out of range (`RuleEngine.AnyReportsFirst` and
  `AllPanicsIff` say exactly when, `InvalidByteMakesMatchingPanic` gives an input).
- The login limit per network does not cover logins with malformed emails (`AuthRateLimit.LoginIpLimitExactly`).
- A login rehash that waits for a reset's row lock stores the old password again, with the time it read before waiting,
  and lets an older token through (`AuthTokens.OlderTokenSetsAgainIff` says exactly when, `LateRehashUndoesReset` gives a
  run).
- Interleaved payment callbacks can credit an order twice (`PaymentRaces.StaysSettledIffNeverLate` says exactly when,
  `OneOrderCreditedTwice` gives an input).
- A reward that was spent keeps a domain from being deleted with refund (`Claims.RefundsGoThroughIff`,
  `SpentRewardBlocksDeletion`), and a claim made while the domain is being deleted is not refunded
  (`EveryRefundIsExactIff`, `LateClaimIsNotRefunded`).
- docs/api.md:48 says that logging out raises the session version; the code deletes the session and does not
  (server/internal/handler/email_auth.go:425-438). The model follows the code.

## Model

| member | source | states |
|---|---|---|
| `Provider.CreateAdoptsOrAdds` | server/internal/service/cloudflare.go:108-142 | Creating a record that exists adopts it with its id and settings; otherwise it gets the settings asked for and an id that no record of the zone has; all other records are as before and ids stay unambiguous. |
| `Provider.DeleteRemovesOne` | server/internal/service/cloudflare.go:179-200 | Deleting by the id of a live record removes that record and no other. |
| `SuspensionLaws.DeleteRecordEffect` | server/internal/service/audit_service.go:364-386 | Deleting one record removes it exactly when the call succeeds and the stored id does not miss it; a failed call changes nothing. |
| `SuspensionLaws.DeleteRecordsEffect` | server/internal/service/audit_service.go:261-276 | The deleting loop leaves the provider without exactly those records before the first failure whose stored ids do not miss them. |
| `SuspensionLaws.DeletedWereThere` | server/internal/service/audit_service.go:370-377 | What the loop deleted had been there: a record without a stored id has to be found first. |
| `SuspensionLaws.RecreateEffect` | server/internal/service/audit_service.go:404-422 | Compensation tries every record, adds nothing else, touches no live record, gives new ids, and restores all of them if no call fails. |
| `SuspensionLaws.RecreateMisses` | server/internal/service/audit_service.go:404-422 | The records still missing after compensation are exactly as many as its failed calls. |
| `CompensationLaws.RecreateTriesAll` | server/internal/service/audit_service.go:404-422 | Compensation makes one or two calls for every record, and reports exactly the number of calls that failed. |
| `CompensationLaws.RecreatedIff` | server/internal/service/audit_service.go:409-418 | Each record for itself: it is live after compensation if and only if it was before or both its own calls succeeded, whatever became of the records before it. |
| `CompensationLaws.LaterRecordsAreRecreated` | server/internal/service/audit_service.go:409-418 | So once no more calls fail, every record that is still to come is live. |
| `SuspensionLaws.SuspendedDbIs` | server/internal/service/audit_service.go:279-297 | The committed transaction suspends the subdomain row and exactly its own records, whatever the order of the loaded copy. |
| `SuspensionLaws.SuspendedMeans` | server/internal/service/audit_service.go:247-307 | If suspension reports success, subdomain and all its records are suspended, and the provider has lost exactly the active records that the stored ids did not miss, for every pattern of failing calls. |
| `SuspensionLaws.SuspendedRecordsAreGone` | server/internal/service/audit_service.go:247-307 | If moreover every stored id is empty or names the live record, the provider holds none of the active records and everything else as before. |
| `SuspensionLaws.SurvivesIffMissed` | server/internal/service/audit_service.go:370-383 | Exactly: an active record survives a successful suspension if and only if it has a stored id, is live, and the id is not its id. |
| `SuspensionLaws.FailedSuspendLeavesDatabase` | server/internal/service/audit_service.go:264-304 | Whatever copy it was given and whatever the provider holds, a suspension that reports failure leaves the database unchanged. |
| `SuspensionLaws.FailedSuspendMeans` | server/internal/service/audit_service.go:264-304 | At the provider, after a reported failure, records it did not delete are as before, re-created ones have new ids, and nothing else is there; if no compensating call failed it holds what it held and every record that was tried. Stale stored ids are included. |
| `SuspensionLaws.FailedSuspendIsCleanIff` | server/internal/service/audit_service.go:388-422 | If no compensating call failed, the provider holds the same records as before if and only if every record that was tried had been there: one whose stale id names nothing is created anew. |
| `SuspensionLaws.FailedSuspendMisses` | server/internal/service/audit_service.go:404-422 | With ids that are empty or name the live record, as many records are missing after a failed suspension as compensating calls failed. |
| `CompensationLaws.FailedSuspendTriesAll` | server/internal/service/audit_service.go:264-304 | What a failed suspension reports as failed are the calls that failed while compensating, and calls were made for every record it had tried. |
| `CompensationLaws.FailedSuspendLeavesIff` | server/internal/service/audit_service.go:264-304 | Of the records it had tried, exactly those are live that their stored ids missed or whose own compensating calls succeeded. |
| `SuspensionLaws.FailedSuspendKeepsContentsIff` | server/internal/service/audit_service.go:388-402 | Ids aside, a failed suspension whose compensating calls succeed leaves type, name, content, TTL and proxy flag of every record as before if and only if every record that was tried had been there. |
| `SuspensionLaws.FailureKeepsSuspendable` | server/internal/service/audit_service.go:264-304 | A failed suspension leaves a state in which all laws above apply to the same copy again, so they cover any number of attempts. |
| `SuspensionLaws.RetrySparesRecreated` | server/internal/service/audit_service.go:411 | The new ids are thrown away: whenever a later attempt reports success, the records that a failed attempt deleted by their ids and re-created stay live. |
| `SuspensionOutcome.RetryCanSpareARecord` | server/internal/service/audit_service.go:247-307 | It happens: one record and one failing database statement; the retry, with no failing call, reports success, and the record stored as suspended is live. |
| `SuspensionOutcome.SuspendSucceedsIff` | server/internal/service/audit_service.go:247-307 | A suspension reports success if and only if none of its calls fails, whose number is fixed by the copy, and every active record without a stored id is live at the provider. |
| `SuspensionOutcome.MissingRecordBlocksSuspension` | server/internal/service/audit_service.go:370-377 | A record stored without an id and missing at the provider keeps its subdomain from ever being suspended, whatever calls succeed. |
| `CompensationLaws.SuspendedCopiesAreDone` | server/internal/service/audit_service.go:247-250 | A copy that says suspended is done at once, without a call. |
| `CompensationLaws.SuspendedAtTransaction` | server/internal/service/audit_service.go:278-290 | The time of a suspension is read after all provider calls, when the transaction begins. |
| `CompensationLaws.StatementsEndAtFirst` | server/internal/service/audit_service.go:278-297 | A transaction ends with its first failing statement. |
| `AuditServices.AuditService.DeleteProviderRecord` | server/internal/service/audit_service.go:364-386 | The call sequence (client, lookup, delete) does what DeleteRecord says. |
| `AuditServices.AuditService.RecreateProviderRecord` | server/internal/service/audit_service.go:388-402 | The call sequence (client, create) does what CreateRecord says and returns the live id. |
| `AuditServices.AuditService.CompensateProviderRecords` | server/internal/service/audit_service.go:404-422 | The loop goes on after failures and counts them, as Recreate says, so RecreateTriesAll and RecreatedIff are about it. |
| `AuditServices.AuditService.SuspendTransaction` | server/internal/service/audit_service.go:278-297 | All statements and the commit succeed and the new tables replace the old ones, or one fails and nothing changes. |
| `AuditServices.AuditService.SuspendSubdomain` | server/internal/service/audit_service.go:247-307 | The loops and the transaction, run step by step, have the outcome of Suspend on both sides, to which the laws above apply. |
| `RestoreLaws.CreateRecordsEffect` | server/internal/service/audit_service.go:469-477 | Restoring creates records up to the first failure, leaves every live record alone and gives created ones fresh ids. |
| `RestoreLaws.CreateRecordsRecorded` | server/internal/service/audit_service.go:471-476 | Each of them is live under the id that is kept for it. |
| `RestoreLaws.DeleteEachEffect` | server/internal/service/audit_service.go:441-449 | Deleting the restored records takes away nothing else, and all of them if no call fails. |
| `CompensationLaws.DeleteEachTriesAll` | server/internal/service/audit_service.go:441-449 | Cleaning up makes one call for every restored record and reports exactly the number that failed. |
| `CompensationLaws.DeletedIff` | server/internal/service/audit_service.go:441-449 | Each record for itself: it is gone if and only if its own call succeeds. |
| `RestoreLaws.FailedRestoreMeans` | server/internal/service/audit_service.go:469-489 | A failed restore leaves the database alone and the provider as it was but for the records attempted, which are gone if the compensating deletes succeed. |
| `RestoreLaws.FailedRestoreIsCleanIff` | server/internal/service/audit_service.go:430-455 | A failed restore whose compensating deletes succeed leaves the provider as it was, ids included, if and only if no attempted record had been live before: adopted records are deleted. |
| `RestoreLaws.AdoptedRecordIsDeleted` | server/internal/service/audit_service.go:469-489 | One failing statement is enough: if the only suspended record of a subdomain was live, it is adopted and then deleted, with every compensating call succeeding. |
| `RestoreLaws.SparedRecordIsLost` | server/internal/service/audit_service.go:247-493 | It happens in a run: the record that a retried suspension left live is gone after a failed restore. |
| `RestoreLaws.FailedRestoreLeaves` | server/internal/service/audit_service.go:430-455 | If no suspended record was live, a failed restore leaves behind exactly as many records as compensating deletes failed. |
| `CompensationLaws.FailedRestoreTriesAll` | server/internal/service/audit_service.go:430-455 | What a failed restore reports as failed: every record without a client, and otherwise the calls that failed, one having been made for each record. |
| `CompensationLaws.FailedRestoreLeavesIff` | server/internal/service/audit_service.go:430-455 | Of the attempted records exactly those are left whose own delete fails, or all of them without a client. |
| `CompensationLaws.RestoreSucceedsIff` | server/internal/service/audit_service.go:457-493 | A restore reports success if and only if its copy says suspended and none of its calls fails, three for each record and three more. |
| `RestoreLaws.RestoredMeans` | server/internal/service/audit_service.go:457-493 | A successful restore makes the subdomain and its suspended records active, all of them live, with stored ids that name the live records, and nothing else changes. |
| `RestoreLaws.RestoreUndoesSuspendAtProvider` | server/internal/service/audit_service.go:247-493 | Suspend then restore: the provider holds all it held before, with the same settings, and every record of the subdomain. |
| `RestoreLaws.RestoreUndoesSuspendOfContents` | server/internal/service/audit_service.go:247-493 | It holds exactly what it held before if no record of the subdomain had been suspended beforehand. |
| `RestoreLaws.RestoreUndoesSuspendInDatabase` | server/internal/repository/audit.go:94-127 | Suspend then restore: subdomain and records are active, every stored id names its live record, and the record table is the same, ids aside, if and only if no record had been suspended beforehand. |
| `RestoreLaws.FailedRestoreAfterSuspend` | server/internal/service/audit_service.go:469-489 | A restore after a suspension that fails but compensates leaves both sides as the suspension left them. |
| `AuditServices.AuditService.CompensateRestoredProviderRecords` | server/internal/service/audit_service.go:430-455 | Without a client nothing is tried; otherwise every id is tried and failures are counted, as DeleteEachTriesAll and DeletedIff say. |
| `AuditServices.AuditService.RestoreTransaction` | server/internal/service/audit_service.go:479-489 | All statements and the commit succeed, or nothing changes. |
| `AuditServices.AuditService.RestoreSubdomain` | server/internal/service/audit_service.go:457-493 | Only the loaded status is tested; otherwise the outcome of Restore on both sides. |
| `UserSuspension.StillSuspendable` | server/internal/repository/audit.go:169-176 | The copies loaded before the loop stay true of the subdomains not yet reached, in the database and at the provider. |
| `UserSuspension.SuspendEachEffect` | server/internal/service/audit_service.go:346-362 | The loop suspends exactly the subdomains before the first failure, on both sides; what follows is the failed attempt at the next. |
| `UserSuspension.SuspendEachSucceedsIff` | server/internal/service/audit_service.go:346-362 | All of a list are suspended if and only if none of the calls they take together fails and every active record without a stored id is live. |
| `UserSuspension.ActiveCopiesAreRefused` | server/internal/service/audit_service.go:458-460 | Restoring copies that still say active is refused each time and changes nothing. |
| `UserSuspension.RestoreEachGoesOn` | server/internal/service/audit_service.go:348-353 | The rollback tries every copy in turn, whatever becomes of those before it. |
| `UserSuspension.PrefixStaysSuspended` | server/internal/service/audit_service.go:338-362 | As written, in the database: after the user-level suspension exactly the subdomains before the first failure are suspended. |
| `UserSuspension.PrefixIsTaken` | server/internal/service/audit_service.go:338-362 | At the provider: every record that is not of the subdomain whose suspension failed is gone if and only if it is an active record of that prefix which its stored id does not miss, and is otherwise as before, id included. |
| `UserSuspension.PrefixIsTakenExactly` | server/internal/service/audit_service.go:338-362 | With ids that name their records, and if no compensating call failed, the contents of the provider are those without the active records of that prefix. |
| `UserSuspension.AllOrNothingIff` | server/internal/service/audit_service.go:338-362 | So in the database it is all or nothing if and only if the listing fails, or nothing is listed, or the first subdomain cannot be suspended, or all can, which is decided by the calls that fail and by the records without an id. |
| `UserSuspension.TwoSubdomainsOneSuspended` | server/internal/service/audit_service.go:338-362 | Neither: of two subdomains with one record each, the first stays suspended when the first call for the second fails. |
| `UserSuspension.RestoreEachEffect` | server/internal/service/audit_service.go:348-353 | Refreshed copies, restored without failure, take their subdomains out of the suspended ones. |
| `UserSuspension.RefreshedRollbackIsAllOrNothing` | server/internal/service/audit_service.go:338-362 | With refreshed copies of subdomains whose records are all active, and compensating calls and restores that succeed, either all listed subdomains are suspended, or all statuses are as before and the provider holds the same records with the same settings. |
| `AuditServices.AuditService.SuspendUserSubdomains` | server/internal/service/audit_service.go:338-362 | The two loops do what SuspendUser says. |
| `Exemption.StepFollows` | server/internal/repository/audit.go:398-491 | Every step only adds rows and moves a status from pending to rechecking, or from there to pending or completed; pairs stay unique. |
| `Exemption.RowsArePermanent` | server/internal/model/models.go:190-198 | In every run rows stay with pair and time, and completed is absorbing. |
| `Exemption.StepKeepsSound` | server/internal/worker/audit_exemption_worker.go:39-65 | Faults and lost tasks included, no step breaks: one row a pair, tasks only for rechecking rows and at most one each, rechecking only when due, and enforcement by a task only of its own subdomain after its row is due. |
| `Exemption.EveryRunIsSound` | server/internal/worker/audit_exemption_worker.go:39-65 | The same for every run with any number of workers. |
| `Exemption.OtherRuleWithoutGrace` | server/internal/service/audit_service.go:127-141 | The grace period is that of the task: in a faultless run from the empty table the recheck of one rule enforces another exempt-enabled rule that has never had a row. |
| `Exemption.EveryFaultlessRunIsTight` | server/internal/service/audit_service.go:58-67 | Without faults and losses, moreover, rechecking rows and tasks in flight correspond one to one, and hits of exempt-enabled rules are enforced by recheck tasks only. |
| `Exemption.StartsTight` | server/internal/service/audit_service.go:127-141 | The same from the empty table. |
| `Exemption.FinalForever` | server/internal/repository/audit.go:436-445 | A completed row, and a rechecking row without a task, never changes again, and hits of its pair in ordinary scans stay exempt for ever. |
| `Exemption.CompletedIsFinal` | server/internal/repository/audit.go:478-484 | No task is in flight for a completed row. |
| `Exemption.LostRecheckEndsScheduling` | server/internal/repository/audit.go:131-148 | A subdomain with a row whose recheck task is lost is never listed for a scan again. |
| `Exemption.ScheduledAgainIff` | server/internal/repository/audit.go:131-148 | Exactly: from a sound state some continuation schedules a subdomain for a scan again if and only if none of its rechecking rows has lost its task. |
| `Exemption.ATaskCanBeLost` | server/internal/worker/audit_exemption_worker.go:39-65 | It happens from the empty table: a hit, a claim after the grace period, and a worker that stops with the task in its hands. |
| `ExemptionWorkers.AuditExemptions.CreateExemptionPending` | server/internal/repository/audit.go:424-446 | Creates the row unless the pair has one; a refusal by the unique index counts as success. |
| `ExemptionWorkers.AuditExemptions.TryHandleViolationExemption` | server/internal/service/audit_service.go:309-336 | Without faults a hit is exempt exactly when its rule allows it; a fault leaves the table alone and the hit is enforced. |
| `ExemptionWorkers.AuditExemptions.HandleHit` | server/internal/service/audit_service.go:127-141 | The branch that a hit takes is one event of the run: without faults an exempt hit of an ordinary scan is spared and its grace period begins unless its pair has had one; every other hit is enforced. |
| `ExemptionWorkers.AuditExemptions.ClaimDueExemptions` | server/internal/repository/audit.go:448-476 | Without a failing statement exactly the listed pairs whose rows are pending and due are taken and become rechecking, a run of claims; a failing one rolls all of them back. |
| `ExemptionWorkers.AuditExemptions.ProcessDue` | server/internal/worker/audit_exemption_worker.go:39-65 | A taken pair is queued if and only if its subdomain is found and the queue accepts it, and its row is then rechecking; refused it is pending again, without a subdomain completed, unless that statement fails; all other rows stay. A round is a run of claims and disposals; if claiming fails it changes nothing. |
| `ExemptionWorkers.AuditExemptions.CompleteExemptionPending` | server/internal/repository/audit.go:478-484 | The deferred completion is the event that ends a recheck, and completes the rechecking row of its pair and no other. |
| `AuditDedups.InprocAuditDedup.TryEnqueue` | server/internal/service/audit_enqueue.go:50-68 | The purging loop and the test admit a key exactly when no entry for it is alive. |
| `AuditDedups.AcceptedIffNoneIsAlive` | server/internal/service/audit_enqueue.go:50-68 | In every run with non-decreasing times a request is refused if and only if an earlier accepted one for the same key has not expired. |
| `AuditDedups.HandlePurges` | server/internal/service/audit_enqueue.go:50-68 | A request purges exactly the expired entries; accepted, it renews its own for the given time or five minutes. |
| `CleanHash.LatestCleanIs` | server/internal/repository/audit.go:184-191 | The scan compared with is the last clean one of the subdomain, and there is one if there is any. |
| `CleanHash.LatestCleanIsNewest` | server/internal/repository/audit.go:184-191 | If scans are stored in the order of their times, it is the clean one with the greatest time; OrderlyRunIsTimed says that in orderly histories they are. |
| `CleanHash.ShortcutIff` | server/internal/service/audit_service.go:98-108 | The shortcut is taken if and only if that scan has this hash and no enabled rule was updated after it. |
| `CleanHash.RecordedStatusIs` | server/internal/service/audit_service.go:499-510 | What is recorded: a violation if a rule matched, unreachable if both tries failed on both channels and no private address was met, clean if neither, without private addresses and cut bodies, and otherwise an error. |
| `Fetching.ConfirmMeans` | server/pkg/audit/fetch_confirm.go:17-39 | A second try is made unless the first reached the site or met a private address; it is what is recorded if it reaches the site, though no rule is matched then, and otherwise confirms that the site is unreachable. |
| `CleanHash.SkipIsRight` | server/internal/service/audit_service.go:98-108 | While the invariant holds, a scan that the shortcut skips would not have matched. |
| `CleanHash.ScanKeepsSoundIff` | server/internal/service/audit_service.go:98-149 | A scan keeps the invariant if and only if neither the probe nor a failure to load the rules bypasses a hit on a page recorded as clean. |
| `CleanHash.SaveKeepsSoundIff` | server/internal/repository/audit.go:199-208 | Saving a rule keeps it if and only if it hits no clean scan of that instant or later: the comparison is strict. |
| `CleanHash.EverySkipIsRight` | server/internal/service/audit_service.go:98-149 | In every orderly history every skipped scan would have found no match, if the hash decides the rules. |
| `CleanHash.AlwaysRightIffDecided` | server/internal/repository/audit.go:184-208 | Exactly: in all orderly histories of pages that the fetcher can return, every skipped scan would have found nothing, if and only if the hash decides every rule that may be saved, so that it misses all readable pages with one hash or none. |
| `CleanHash.AnyTouchesIffMatched` | server/internal/service/audit_rule_engine.go:58-101 | A scan that matches rules finds something exactly when the engine reports a match for the enabled rules or panics. |
| `DecidedRules.TextRulesAreDecided` | server/internal/service/audit_rule_engine.go:285-296 | Keyword and regex rules that look at body and title only are decided by the hash, whatever the library functions for folding and matching. |
| `DecidedRules.TextRulesAreSafe` | server/internal/service/audit_service.go:98-149 | With such rules only, every skip in every orderly history is right. |
| `DecidedRules.TextRuleIsDecidedIff` | server/pkg/audit/fetcher.go:287-405 | Exactly: a keyword or regex rule in use is decided if and only if there are no body and two URLs that requests can end at, such that the rule misses the page at one of them and not at the other. |
| `DecidedRules.KeywordOfEveryUrl` | server/internal/service/audit_rule_engine.go:285-296 | A rule that looks for any of its keywords in the final URL is decided if one of them occurs in every URL. |
| `DecidedRules.PatternOfEveryUrl` | server/internal/service/audit_rule_engine.go:264-283 | So is a rule on the final URL whose pattern matches in every URL. |
| `DecidedRules.KeywordOfSomeUrls` | server/internal/service/audit_rule_engine.go:191-215 | It is not decided if one URL has one of its keywords and another has none. |
| `DecidedRules.RedirectGoesUnnoticed` | server/internal/service/audit_rule_engine.go:285-296 | It happens: with the keyword "win", a site at https://a.io/ that begins to redirect to https://a.io/win with the same body. |
| `DecidedRules.SchemeIsDecided` | server/pkg/audit/fetcher.go:342-345 | The keyword "http" on the final URL is decided, if every URL begins with it. |
| `DecidedRules.StatusRuleIsDecidedIff` | server/internal/service/audit_rule_engine.go:318-327 | A rule on a status code is decided if and only if no response can have that code, as informational ones. |
| `DecidedRules.UnreachableRuleIsDecidedIff` | server/pkg/audit/inaccessible.go:44-64 | A rule on unreachable sites is not decided, unless nothing ever answers: a site that answers with the same body and an error status is unreachable with an unchanged hash. |
| `DecidedRules.DecidedIff` | server/internal/service/audit_rule_engine.go:154-327 | Exactly, for every rule: the hash decides it unless it is in use and looks at something in the final URL, at a status code that a response can have, or at reachability. |
| `CleanHash.ScanHistory.ScanSubdomain` | server/internal/service/audit_service.go:69-149 | The scan records what the step says, early returns, a panic of the matching and a failed insert included, and enforces exactly when it was ready, its record was inserted and a rule matched. |
| `RuleEngine.KeywordRuleHitsIff` | server/internal/service/audit_rule_engine.go:173-262 | Whatever the folding, if matching does not panic: a keyword rule hits if and only if it has keywords and one of them, or each of them, occurs in some target text after folding and the cut to 10 MB. |
| `RuleEngine.AnyReportsFirst` | server/internal/service/audit_rule_engine.go:191-215 | A rule that asks for any keyword reports the first occurrence, in the order of targets and then of keywords, and panics if and only if its slice of the unfolded text is out of range. |
| `RuleEngine.AllPanicsIff` | server/internal/service/audit_rule_engine.go:245-262 | A rule that asks for all keywords panics if and only if the first slice that does not lie behind the end of its text is out of range. |
| `RuleEngine.KeptLengthsNeverPanic` | server/internal/helpers/text.go:38-46 | With a folding that keeps lengths no slice is out of range. |
| `RuleEngine.InvalidByteMakesMatchingPanic` | server/internal/helpers/text.go:38-46 | With one that replaces an invalid byte by three bytes, the body ff 61 62 63 and the keyword "ab" panic. |
| `RuleEngine.RegexHitsIff` | server/internal/service/audit_rule_engine.go:264-283 | A regex rule hits if and only if its pattern matches in some target. |
| `RuleEngine.RegexReportsFirstTarget` | server/internal/service/audit_rule_engine.go:264-283 | What is reported is the match in the first target in which the pattern matches. |
| `RuleEngine.MatchesIff` | server/internal/service/audit_rule_engine.go:58-101 | A match is reported if and only if its rule is listed, is enabled or a draft, is in scope, and hits a channel or the confirmed unreachability. |
| `RuleEngine.MatchesInOrder` | server/internal/service/audit_rule_engine.go:58-101 | Matches are reported rule by rule in the order of the rules. |
| `RuleEngine.ReportedOfRule` | server/internal/service/audit_rule_engine.go:62-100 | One rule reports nothing unless it is enabled or a draft and the domain is in its scope; a rule on unreachable sites reports the last try, the others HTTPS before HTTP with the scheme in front. |
| `RuleEngine.MatchRuleMeans` | server/internal/service/audit_rule_engine.go:154-171 | Status rules hit clean fetches with their code and report it; patterns are not searched in a cut page, keywords are. |
| `RuleEngine.SnippetIsContext` | server/internal/helpers/text.go:18-46 | A snippet shows the match between exactly the 50 runes before it and the 100 after it, or as many as there are. |
| `AuditRuleEngines.MatchKeywordAny` | server/internal/service/audit_rule_engine.go:191-215 | The nested loops end as KeywordAny says, slices out of range included. |
| `AuditRuleEngines.MatchKeywordAll` | server/internal/service/audit_rule_engine.go:217-262 | The two loops end as KeywordAll says, with the first snippet that is not empty, slices out of range included. |
| `AuditRuleEngines.MatchKeywordMultiTarget` | server/internal/service/audit_rule_engine.go:173-189 | Blank keywords are dropped, then the rule's logic decides. |
| `AuditRuleEngines.MatchRegexMultiTarget` | server/internal/service/audit_rule_engine.go:264-283 | The loop finds what MatchRegex finds, to which the two laws above apply. |
| `AuditRuleEngines.MatchAllProbeWithRules` | server/internal/service/audit_rule_engine.go:58-101 | The loops over rules and channels report exactly Matches, in order, unless matching one of the rules panics. |
| `AuditRuleEngines.PickPrimaryMatch` | server/internal/service/audit_rule_engine.go:104-116 | Returns a match that none betters and that betters all before it. |
| `AuditRuleEngines.PrimaryIsUnique` | server/internal/service/audit_rule_engine.go:104-116 | There is only one such match. |
| `AuditRuleEngines.BetterIff` | server/internal/service/audit_rule_engine.go:130-152 | A match is better if its action comes earlier among ban of the user, site, deleting DNS records, observing and anything else, or is the same and its rule is older. |
| `AuditRuleEngines.PrimaryIsStrongest` | server/internal/service/audit_rule_engine.go:130-152 | It calls for the strongest action and, among those, belongs to the oldest rule. |
| `Utf8.RunesSplit` | server/internal/helpers/text.go:38-46 | Around valid text decoding falls apart into what is before, the text, and what is after. |
| `Utf8.RunesOfEncode` | server/internal/helpers/text.go:6-15 | Runes survive encoding and decoding. |
| `Snippets.SnippetHoldsMatch` | server/internal/helpers/text.go:18-46 | The snippet is the whole match between at most as many runes as asked for on either side. |
| `Snippets.CutKeeps` | server/internal/helpers/text.go:6-15 | Cutting to a number of runes keeps what ends within them. |
| `Snippets.StoredSnippetHoldsMatch` | server/internal/service/audit_rule_engine.go:93-97 | A match of at most 128 bytes survives prefix and cut: 8 + 50 + 128 <= 200. |
| `RuleReports.FoldOfIsRuneWise` | server/internal/service/audit_rule_engine.go:200-209 | For every rule, case-sensitive or not, folding goes rune by rune if the library function does; ASCII lower-casing does (AsciiIsRuneWise), so what matches a valid keyword is valid. |
| `RuleReports.StoredSnippetShowsKeyword` | server/internal/service/audit_rule_engine.go:85-98 | What is stored of a keyword hit shows a whole keyword of the rule, its first if all are required. |
| `AuditRuleValidation.AuditRule.ValidateType` | server/internal/service/audit_rule_validate.go:66-130 | The switch reports the first thing wrong with the fields of the match type and fills in the keyword logic. |
| `AuditRuleValidation.AuditRule.Validate` | server/internal/service/audit_rule_validate.go:42-172 | Validation reports the first error, and leaves an accepted rule in normal form. |
| `AuditRuleValidation.AcceptedIff` | server/internal/service/audit_rule_validate.go:42-172 | A draft is accepted if and only if its name, targets, pattern or keywords, action, notices and grace period are within all the limits. |
| `AuditRuleValidation.NormalMeans` | server/internal/service/audit_rule_validate.go:66-172 | What is stored has no leftovers of other match types, a keyword logic for keyword rules, and a grace period only where one is asked for. |
| `AuditRuleValidation.ValidationIsStable` | server/internal/service/audit_rule_validate.go:42-172 | A normalised rule is accepted again and stays as it is. |
| `AuditRuleValidation.ValidatedRuleShowsKeyword` | server/internal/service/audit_rule_validate.go:93-107 | Of a validated keyword rule, whatever is stored of a hit shows a whole keyword. |
| `AuthTokens.Repository.ConsumeAuthToken` | server/internal/repository/auth.go:127-158 | Consumes the one live token with this hash or fails and changes nothing. |
| `AuthTokens.ConsumesIff` | server/internal/repository/auth.go:127-158 | A token is consumed if and only if there is an unconsumed, unexpired one with this hash and one of these purposes; nothing else changes. |
| `AuthTokens.Repository.UpdateCredentialPassword` | server/internal/repository/auth.go:213-275 | Sets the password, raises the version if a token was given, and consumes all outstanding tokens, or fails and changes nothing; blank hashes are refused. |
| `AuthTokens.Repository.BumpSessionVersion` | server/internal/repository/auth.go:185-196 | Raises the version by one. |
| `AuthTokens.TokenConsumedAtMostOnce` | server/internal/repository/auth.go:127-158 | In every interleaving at most one attempt to consume a token succeeds. |
| `AuthTokens.RunGrows` | server/internal/repository/auth.go:127-275 | In every run tokens stay, are consumed for good, and session versions never decrease. |
| `AuthTokens.PasswordTimeNeverFalls` | server/internal/repository/auth.go:228-262 | Without a stale rehash the time of the password never decreases. |
| `AuthTokens.OnlyTokensIssuedLaterSetThePasswordAgain` | server/internal/repository/auth.go:213-275 | After a token set the password at time s, only a token created later than s sets it again, in every interleaving of issue, consume, hash and apply. |
| `AuthTokens.WriteConsumesOutstanding` | server/internal/repository/auth.go:262-272 | Every write of a password, be it by a token or a login rehash, consumes exactly the unconsumed activation, reset and restore tokens of its user, and touches no other token. |
| `AuthTokens.NoneIsOutstanding` | server/internal/repository/auth.go:262-272 | So right after it no such token of the user is unconsumed. |
| `AuthTokens.OutstandingTokensDie` | server/internal/repository/auth.go:262-272 | And none that existed then is ever consumed any more, in every interleaving. |
| `AuthTokens.WriteChangesCredential` | server/internal/repository/auth.go:245-259 | A write sets hash and time, ends a pending activation, raises the version with a token only, and changes no other credential. |
| `AuthTokens.AppliesExactly` | server/internal/repository/auth.go:206-243 | A token sets a password if and only if its row is a consumed activation or reset token of the user, with the email of the copy and of the credential, created after the password was last set. |
| `AuthTokens.RehashesIff` | server/internal/handler/email_auth.go:381-391 | A rehash goes through if and only if the user has a credential and the hash is not blank. |
| `AuthTokens.PasswordIsOfLastWrite` | server/internal/repository/auth.go:213-275 | In every run a password and its time are those of the last write, be it a token or a login rehash. |
| `AuthTokens.SetsAgainIff` | server/internal/repository/auth.go:228-262 | Exactly, in every run: after a password was written, a token that is otherwise in order sets it again if and only if it was created later than the time of the last write. |
| `AuthTokens.OlderTokenSetsAgainIff` | server/internal/handler/email_auth.go:381-391 | So, after the last token that set the password, at time s, one created at s or before sets it again if and only if the last write is a login rehash with a time before that creation. |
| `AuthTokens.OlderTokenNeedsRehash` | server/internal/handler/email_auth.go:381-391 | And whatever tokens came between, if a token created at s or before sets the password again, a login rehash in between wrote a time before s. |
| `AuthTokens.RehashDecidesForTheSibling` | server/internal/handler/email_auth.go:381-391 | In one step: after a login rehash a consumed sibling passes if and only if the rehash wrote a time before the sibling was issued. |
| `AuthTokens.LateRehashUndoesReset` | server/internal/repository/auth.go:213-275 | It happens from the empty tables with clocks that agree, as the time is read before the row lock: a login rehash that waits for a reset stores the old password again with its earlier time, and an older token sets the password after that. |
| `AuthTokens.VersionRisesExactlyOnRevocation` | server/internal/repository/auth.go:185-259 | The version rises by one on a token-based password set and on a bump, and on nothing else. |
| `AuthTokens.RevocationIsPermanent` | server/internal/middleware/auth.go:125-142 | A session token minted from any credential read before a revocation fails the version test of every later request. |
| `AuthTokens.SessionsSurviveEverythingElse` | server/internal/middleware/auth.go:125-142 | Without a revocation it keeps passing the version test, whatever else happens. |
| `AuthRateLimit.EmailAuthHandler.CountRecentEvents` | server/internal/repository/auth.go:160-183 | Counts the events of one action and account or network since a time; blank values are not counted. |
| `AuthRateLimit.EmailAuthHandler.AllowAuthRequest` | server/internal/handler/email_auth.go:908-933 | Allows a request exactly when both counts are below ten, the network only if it is known. |
| `AuthRateLimit.RefusedIff` | server/internal/handler/email_auth.go:908-933 | A request is refused if and only if the 15 minutes before it hold ten events of its action and its email, or of its action and its network, where these are known. |
| `AuthRateLimit.EmailAuthHandler.Serve` | server/internal/handler/email_auth.go:349-357 | Records the event the handler records, with or without the check. |
| `AuthRateLimit.RecordedIff` | server/internal/handler/email_auth.go:338-357 | Exactly the requests that are not refused, and malformed logins without a check, leave an event. |
| `AuthRateLimit.EmailLimitHolds` | server/internal/handler/email_auth.go:908-933 | In every serial history no closed 15-minute window holds more than ten events per action and non-blank email. |
| `AuthRateLimit.IpLimitHoldsExceptLogin` | server/internal/handler/email_auth.go:101-262 | The same per network for registration, activation and forgotten passwords. |
| `AuthRateLimit.LoginIpLimitExactly` | server/internal/handler/email_auth.go:338-357 | For login it holds if and only if no unchecked record came when the check would have refused it. |
| `AuthRateLimit.MalformedLoginsAreNotLimited` | server/internal/handler/email_auth.go:349-353 | Logins with a malformed email are recorded without any limit. |
| `Ledger.Repository.DeductCredits` | server/internal/repository/credit.go:31-55 | Deducts and logs, or reports the guard that refuses. |
| `Ledger.Repository.GrantCredits` | server/internal/repository/credit.go:57-87 | Grants and logs, or reports the guard that refuses. |
| `Ledger.Repository.RefundCredits` | server/internal/repository/credit.go:89-113 | Refunds and logs, or reports the guard that refuses. |
| `Ledger.Repository.Transaction` | server/internal/repository/repository.go:32-34 | All operations are applied or none. |
| `Ledger.GuardsAreExact` | server/internal/repository/credit.go:31-113 | The guards refuse exactly what would leave the range or needs a balance that is missing. |
| `Ledger.EveryRunIsConsistent` | server/internal/repository/credit.go:31-113 | In every run, rollbacks and deleted accounts included, each balance is the sum of its user's rows and within [0, MaxInt64]. |
| `Ledger.RunningBalanceAt` | server/internal/repository/credit.go:44-54 | Each row's balance is the sum of its user's rows up to it. |
| `Payments.PaymentHandler.ProcessPayment` | server/internal/handler/payment.go:416-479 | A callback, run alone, has the outcome of Callback. |
| `Payments.CommitSettlesIffStillPending` | server/internal/handler/payment.go:441-470 | Committing a copy of an order, read earlier, credits it exactly once if and only if its row is still there and pending at that moment. |
| `Payments.CallbackIsAllOrNothing` | server/internal/handler/payment.go:416-479 | A callback pays and credits together or changes nothing, and a repeated one changes nothing. |
| `Payments.CallbackPaysIff` | server/internal/handler/payment.go:416-479 | A callback pays its order if and only if it is pending and its statements succeed, the grant of a positive amount within range included; identity-verification orders are credited only while that service is missing. |
| `Payments.EverySerialRunSettles` | server/internal/handler/payment.go:416-479 | In every serial run an order is paid exactly when it was credited its credits, once. |
| `PaymentRaces.CallbackIsQueryThenTransaction` | server/internal/handler/payment.go:416-479 | A callback that nothing comes between is its query followed by its transaction. |
| `PaymentRaces.StaysSettledIffNeverLate` | server/internal/handler/payment.go:416-479 | In every interleaving of queries, transactions and everything else: at all times orders are paid exactly when credited once, if and only if no transaction goes through with a row paid or deleted since its query. |
| `PaymentRaces.OneOrderCreditedTwice` | server/internal/handler/payment.go:416-479 | It happens from the empty shop: two queries, then two transactions, and one order of ten is credited twenty. |
| `Claims.Registry.Claim` | server/internal/handler/subdomain.go:147-189 | Charge or reward and the new row happen together or not at all. |
| `Claims.Registry.CollectRefunds` | server/internal/handler/domain.go:458-492 | The loop collects a refund for each owned subdomain with a price, or nothing without the flag. |
| `Claims.RefundOfRow` | server/internal/handler/domain.go:467-490 | A row is refunded if and only if it has an owner and its cost, or at cost zero the current price of the owner's group, is not zero. |
| `Claims.RefundsInOrder` | server/internal/handler/domain.go:466-491 | Rows are refunded in the order in which they are listed. |
| `Claims.DeletionPaysWhatIsOwed` | server/internal/handler/domain.go:466-566 | Rows of whatever cost and with or without an owner: a deletion that goes through gives every user exactly what is owed for their rows. |
| `Claims.Registry.AdminDelete` | server/internal/handler/domain.go:549-574 | Refunds collected earlier and the deletion happen together or not at all. |
| `Claims.ClaimsTakeWhatTheyCharge` | server/internal/handler/subdomain.go:147-189 | In any history of claims and other credit movements, what the claims did to a user is the opposite of the costs stored with the rows. |
| `Claims.DeletionRefundsExactlyWhatClaimsTook` | server/internal/handler/domain.go:549-574 | After any such history, if no claim comes between collecting the refunds and the deletion, and in whatever order the claimed rows are listed, a deletion with refund that goes through gives each user exactly the opposite of what all their claims did, of either sign. |
| `Claims.RefundIsExactIff` | server/internal/handler/domain.go:468-566 | With claims in between, whose rows are deleted too, a user gets back exactly that if and only if those claims cost the user nothing on balance. |
| `Claims.EveryRefundIsExactIff` | server/internal/handler/domain.go:468-566 | If they were charges, everybody gets back exactly what their claims took if and only if the rows at the deletion are those collected. |
| `Claims.LateClaimIsNotRefunded` | server/internal/handler/domain.go:468-566 | It happens: a second subdomain claimed for 5 when the refund of the first is already collected. |
| `Claims.RefundsGoThroughIff` | server/internal/handler/domain.go:549-574 | The refunds go through if and only if each row, in its turn, has an owner with a balance that the refunds up to it leave within range, and a cost other than MinInt64. |
| `Claims.SpentRewardBlocksDeletion` | server/internal/handler/domain.go:549-574 | So a reward that its owner has spent since keeps the domain from being deleted with refund. |
| `Claims.LeastCostIsRefused` | server/internal/handler/domain.go:549-574 | A stored cost of MinInt64 is refused, as its negation wraps around, but no claim can store it. |
| `Claims.RewardSpentOnAClaimBlocksDeletion` | server/internal/handler/domain.go:549-574 | It happens: a reward of 10, of which 5 go into a second claim. |
| `Claims.ChargesCanAlwaysBeRefunded` | server/internal/handler/domain.go:549-574 | With charges only, the deletion goes through in any order of the rows, as long as no balance overflows by all refunds together. |
| `EscapeLike.PassesEscapeEachCharacterOnce` | server/internal/repository/repository.go:10-15 | The three passes are one escape per character. |
| `EscapeLike.EscapedPatternMatchesExactlyContainment` | server/internal/repository/repository.go:10-15 | The pattern %escaped(s)% matches t if and only if s occurs in t. |
| `PasswordHash.CheckPepperID` | server/internal/auth/password.go:209-221 | Accepts exactly trimmed ids of 1 to 32 allowed characters. |
| `PasswordHash.ReadParameters` | server/internal/auth/password.go:168-207 | The loop reads each key once, in any order, and checks the ranges. |
| `Base64.DecodeEncode` | server/internal/auth/password.go:146-166 | Unpadded base64 decodes what it encodes (sections 3.2 and 4 of RFC 4648). |
| `PasswordHash.ParsePrint` | server/internal/auth/password.go:146-166 | Parsing the printed form returns exactly the parameters, salt and hash. |
| `PasswordHash.FreshHashVerifies` | server/internal/auth/password.go:50-114 | A fresh hash verifies without a rehash, and another password exactly when it derives the same key. |
| `PasswordHash.HashesIff` | server/internal/auth/password.go:50-75 | Hashing needs a password of 8 to 128 characters and a usable current pepper; verifying refuses other passwords. |
| `PasswordHash.RehashIff` | server/internal/auth/password.go:93-124 | Verifying under the current pepper asks for a rehash if and only if memory, iterations or parallelism is not today's. |
| `PasswordHash.ParsesIff` | server/internal/auth/password.go:126-207 | A printed hash is accepted if and only if its costs are in range and salt and key have their lengths. |
| `PasswordHash.RotationAsksForRehash` | server/internal/auth/password.go:93-124 | After a rotation it verifies and asks for a rehash while the pepper is kept as the previous one, and reports a missing pepper after that. |
| `GroupIds.ParseGroupIds` | server/internal/handler/daily_checkin_config.go:117-148 | The loop with its seen set and the sort give the ascending list of the ids in the text. |
| `GroupIds.FormatGroupIds` | server/internal/handler/daily_checkin_config.go:150-168 | Sorting and skipping neighbours give the canonical text. |
| `GroupIds.ParseFormat` | server/internal/handler/daily_checkin_config.go:117-168 | Parsing the printed list gives the ascending duplicate-free list. |
| `GroupIds.BlanksDoNotMatter` | server/internal/handler/daily_checkin_config.go:117-140 | White space around tokens does not matter. |
| `GroupIds.EmptyTokensDoNotMatter` | server/internal/handler/daily_checkin_config.go:125-130 | Nor do empty or blank tokens, wherever they stand. |
| `GroupIds.TokensReadIff` | server/internal/handler/daily_checkin_config.go:124-142 | A text is refused if and only if some token is neither blank nor an identifier; otherwise it stands for exactly the identifiers of its tokens. |
| `GroupIds.NumeralIsIdIff` | server/internal/handler/daily_checkin_config.go:130-136 | The printed numbers that are identifiers are those from 1 to 2^64 - 1. |
| `GroupIds.FormatOfParsedIsNormalForm` | server/internal/handler/daily_checkin_config.go:117-168 | Printing a parsed text is a fixed point of parsing and printing. |
| `LogSink.DBSink.Enqueue` | server/internal/logger/db_sink.go:110-117 | An entry is accepted exactly when the channel has room. |
| `LogSink.DBSink.WakeByTick` | server/internal/logger/db_sink.go:127-150 | A tick flushes what is batched. |
| `LogSink.DBSink.WakeByChannel` | server/internal/logger/db_sink.go:127-150 | A receive batches one entry and flushes a full batch; a drained closed channel ends the goroutine. |
| `LogSink.TickEmptiesBatch` | server/internal/logger/db_sink.go:145-147 | After a tick of a running sink the batch is empty, inserted if it was not, and the channel is as before. |
| `LogSink.ReceiveMeans` | server/internal/logger/db_sink.go:127-144 | A receive moves one entry into the batch, which is inserted if and only if that fills it. |
| `LogSink.DBSink.Close` | server/internal/logger/db_sink.go:180-183 | When Close returns, everything accepted was inserted, once and in order. |
| `LogSink.EveryInterleavingConserves` | server/internal/logger/db_sink.go:110-183 | In every interleaving inserted, batched and queued entries are the accepted ones in order, and no batch exceeds its size. |
| `LogSink.RefusedOnlyWhenFull` | server/internal/logger/db_sink.go:110-117 | An entry is dropped exactly when the channel is full. |
| `LogSink.ClosedSinkDrains` | server/internal/logger/db_sink.go:119-151 | After the close, one receive per queued entry and one more end the goroutine. |
| `RateLimiting.RateLimiter.Take` | server/internal/service/ai_llm_service.go:205-223 | The locked part of the acquisition does what Acquire says. |
| `RateLimiting.AILLMService.TryAcquire` | server/internal/service/ai_llm_service.go:198-224 | Each configuration has its own limiter; a limit of zero or less lets everything through. |
| `RateLimiting.LimitersAreApart` | server/internal/service/ai_llm_service.go:199-202 | A limit of zero or less lets everything through and leaves no trace; a new configuration starts with a full bucket, a known one goes on with its own, and no other bucket changes. |
| `RateLimiting.RefillKeepsLimit` | server/internal/service/ai_llm_service.go:209-217 | Whatever overflows in 64 bits, a refill leaves at most the limit and comes at least 60 seconds after the last. |
| `RateLimiting.RefillFillsCompletely` | server/internal/service/ai_llm_service.go:209-217 | Unless the sum overflows, a refill sets the tokens to the limit, and comes as soon as a minute has passed. |
| `RateLimiting.OverflowStopsRefills` | server/internal/service/ai_llm_service.go:210 | With an overflow it may not come: a limit of 2^62 is not refilled after two minutes. |
| `RateLimiting.RunKeepsBounds` | server/internal/service/ai_llm_service.go:198-224 | In every run too short for the product of minutes and limit to overflow, tokens never fall below zero and every call after a whole minute finds a full bucket. |
| `RateLimiting.WindowBound` | server/internal/service/ai_llm_service.go:198-224 | Whatever overflows in 64 bits, any window of W lets at most (floor(W / 60 s) + 2) times the limit through. |
| `RateLimiting.WindowBoundIsReached` | server/internal/service/ai_llm_service.go:198-224 | And that many get through in some run, so the bound is exact. |

## Left out

- SuspensionLaws.SuspendedRecordsAreGone: assumes that a call that fails has had no effect; a delete or create that took effect and then reported an error is not modelled, nor is a Cloudflare delete that counts as done because looking the record up afterwards failed too (server/internal/service/cloudflare.go:190-196).
- SuspensionLaws.SuspendedMeans: the log row and the notification of a suspension are statements without contents.
- Provider.DeleteRemovesOne: ids, settings and deletion are Cloudflare's. Aliyun ignores the TTL, and Route 53 deletes by name and type, so that what is said of TTLs and of stored ids that miss does not carry over to them.
- UserSuspension.PrefixIsTaken: assumes that no two subdomains share a record, as their names differ; what the failed attempt leaves of its own subdomain is said by SuspensionLaws.FailedSuspendMeans.
- UserSuspension.RefreshedRollbackIsAllOrNothing: is about a rollback that the code does not have; it says what refreshing the copies would achieve for subdomains without records suspended before.
- Exemption.EveryFaultlessRunIsTight: takes tasks as delivered once; the queue's redelivery of unacknowledged tasks is not an event.
- CleanHash.AlwaysRightIffDecided: takes a scan as one step and equal hashes as equal inputs; which URLs requests can end at is a parameter; an edit between loading the rules and recording the scan is not modelled. A title is a function of the body, where the code also depends on how the body arrives in chunks.
- RuleEngine.KeywordRuleHitsIff: lower-casing is a parameter; the tables of Unicode are left out.
- RuleReports.StoredSnippetShowsKeyword: is about foldings that go rune by rune and keep lengths; Unicode lower-casing can change lengths, and then the snippet, which the code takes at the place found in the folded text, may show something else.
- AuditRuleEngines.MatchRegexMultiTarget: regular expressions are a parameter; their cache, keyed by the second of the last update, is left out.
- AuthTokens.OnlyTokensIssuedLaterSetThePasswordAgain: excludes rehashes that write a time before the stored one, about which OlderTokenSetsAgainIff is exact, and clients whose clock is behind the issue of their own token.
- AuthTokens.RevocationIsPermanent: JWT signatures, expiry and the session table are left out; only the version test is modelled.
- AuthRateLimit.EmailLimitHolds: serial histories only; requests that check before either records can exceed the limit.
- PaymentRaces.StaysSettledIffNeverLate: a query reads one committed state, and a transaction is one step.
- Claims.DeletionRefundsExactlyWhatClaimsTook: is about subdomains claimed at a cost other than zero; for the others the code refunds the current price, which DeletionPaysWhatIsOwed says. Claims in between are the subject of RefundIsExactIff, and releases in between are left out.
- Claims.Registry.AdminDelete: takes the rows to be deleted always; the code leaves that statement out when there was no subdomain at first.
- RateLimiting.WindowBound: elapsed times are those of a clock that does not step back, within the 292 years of a duration.
- PasswordHash.FreshHashVerifies: Argon2id and the pepper are a function of the password, salt and costs.
- EscapeLike.EscapedPatternMatchesExactlyContainment: case folding of ILIKE is a parameter applied to single characters.
- Deleting scannable records and releasing a subdomain as enforcement actions: they belong to the DNS operation and subdomain services, which are not part of this model.
- The AI review that follows a clean scan, prompts and model calls: foreign I/O.
- Float rounding when credit amounts are parsed: amounts are integers from the start.
- Registration with rewards and referrals, captchas, mail, cookies, listing and paging, branding, backups, the web front end: plumbing.
- Provider clients other than the behaviour of their three calls, fetching, hashing, encryption: foreign I/O.
