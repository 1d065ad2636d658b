# Alert pipeline verification

A Dafny model of the parts of the alert service that other parts trust blindly: the notification outbox with its two
delivery channels, the scans that fill it, the account protection around refresh tokens and reset codes, two data
migrations over live tables, the query engine that decides what is relevant, and the pages and schedules around them.

`dafny verify dfyconfig.toml` checks everything.

## How the model is built

| file | what it holds |
|---|---|
| `Sql` | null columns, three-valued `WHERE` clauses, counting |
| `OrderBy` | `ORDER BY` under a strict total order, `LIMIT` |
| `OutboxChannel` | one channel of one outbox row: its columns, and a log of every claim with its send and its fate |
| `OutboxTable` | the whole table: many workers, row locks of open claim transactions, both channels |
| `OutboxFairness` | how soon a never-attempted row is claimed |
| `OutboxRepository` | the repository class on full rows, proved to take steps of `OutboxTable` |
| `Drain`, `DrainOutcomes` | routing, delivery and the two drain loops, proved to be runs of `OutboxTable`; and what a pass leaves of each row |
| `OwnerStamping` | the one-off migration that stamps owners on old outbox rows |
| `ScanTables`, `ScanPipeline` | what a scan writes, as a class over the tables and as a function of their contents |
| `ScanRace` | scans as transactions in small steps: look-up, savepoint insert, unique violation, re-read |
| `Coalescing` | a scan pass with and without the shared fetch cache, on listing objects |
| `LoginLockout`, `RefreshTokens`, `ResetCodes` | the three account state machines and their runs |
| `AuthService` | the service class, whose methods are proved to be their steps |
| `QueryParsing`, `Relevance` | relevance engine v2 |
| `QueryLaws`, `RelevanceLaws` | the same reading and verdict, stated item by item and term by term without the engine's functions |
| `MetadataBackfill`, `BackfillOutcomes`, `BackfillProgress` | re-fetching missing metadata, what a run does to each row, and which rows it ever reaches |
| `OwnedPagination` | the pages of listings a user owns |
| `Cadence` | which passes scan a search |

A table is a map or sequence field of a class, a row is a value, and every method that writes is proved against a function
of the old contents. Those functions are the steps of the runs the laws quantify over. What each of them decides is stated a
second time, on columns and without their names: as an if-and-only-if where the source decides, as the new value of every column
where it writes. A run is any sequence of steps whose
guards hold, so any number of workers, crashes, overrun leases and interleavings is covered. Clocks, random draws, provider
replies, marketplace answers, stems and vocabularies are parameters. Times are integers (real numbers in `Cadence`), and
weights of the relevance engine are integers with the 0.6 credit counted in tenths, so all shares are exact.

## What came out

- **A row may be sent more than once, and the price is exact.** Accepted sends are at most one plus the claims that were
  abandoned or overtaken. The bound is reached (`OutboxChannel.SendBoundIsTight`).
- **`complete` has no fence.** A worker that overran its lease can reopen a row its successor delivered
  (`OutboxChannel.LateRefusalReopensSentRow`), or revive one that had failed (`OutboxChannel.LateReportRevivesFailedRow`). The
  steps that take a row out of `sent` are exactly the completions of held claims whose send was not accepted; out of `failed`,
  those whose send was accepted, that wait for a destination, or that come under a limit not reached
  (`OutboxTable.FinishedRowReopensIff`).
- **The attempt limit is stretched by lost claims.** Each abandoned or overtaken claim buys one attempt beyond it, and
  that bound is reached (`OutboxChannel.AttemptLimitIsReached`).
- **The attempt limit does not stop a poison pill.** Claiming never checks it, so a row whose worker always dies is claimed
  for ever (`OutboxChannel.PoisonPillIsClaimedForEver`). The comment at `marketplace_alert/core/persistence/models.py:393-397`
  says the opposite; the model follows the code.
- **The channels share row locks.** Their columns, logs and counters never influence each other, but a push claim in flight
  makes a Telegram claim pass over the rows it holds (`OutboxTable.OverlappingClaimPassesOver`). Independence therefore holds
  for the order of claims when the claim transactions of the two channels do not overlap, and without that condition for
  everything else.
- **Owner stamping fails as a whole** exactly when some listing has a row to stamp beside an ownerless row or a row of the same
  owner (`OwnerStamping.CommitSucceedsIff`).
- **Rows that never settle can starve the backfill.** Rows of unconfigured marketplaces, and rows whose look-up fails every
  time, stay candidates, newest first, and are selected again by every run. A row is ever settled if and only if its own look-up
  settles it, no newer candidate of its marketplace trips the authentication breaker, and fewer than `limit` newer candidates
  fail either test (`BackfillProgress.SettledEventuallyIff`); `BackfillProgress.OlderRowStarves` shows a row that is not.
- **The scan grace is exactly tight.** Every steady schedule scans a search of `m` periods at exactly every `m`-th pass if and only
  if the jitter is at most the grace in effect and, for `m > 1`, pass `m - 1` stays out of reach (`Cadence.CadenceIff`).
- The header of `marketplace_alert/core/notifications/outbox.py:103-106` still says that a listing can have one outbox row only.
  The constraint is one per user and listing, which is what the model has.

## Model

| member | source | states |
|---|---|---|
| OutboxChannel.AcceptedSendsBounded | marketplace_alert/core/notifications/outbox.py:365-455 | in every run, with crashes and overrun leases, a provider took the row at most once more than claims were abandoned or overtaken; a sent row was taken at least once, and exactly once when no claim was lost |
| OutboxChannel.SendBoundIsTight | marketplace_alert/core/notifications/outbox.py:103-120 | for every `n` a run exists that loses `n` claims and sends `n + 1` times |
| OutboxChannel.AttemptCountExact | marketplace_alert/core/persistence/notification_outbox.py:217-278 | `attempt_count` is always the number of claims less the completions that waited for a destination, and is positive whenever a claim can still complete, so the `max(0, ...)` floor is never used |
| OutboxChannel.AttemptLimit | marketplace_alert/core/persistence/notification_outbox.py:262-278 | each lost claim buys one attempt beyond the limit; with none lost a pending row is below it and a failed row exactly at it; waiting for a destination never fails a row |
| OutboxChannel.AttemptLimitIsReached | marketplace_alert/core/persistence/notification_outbox.py:262-278 | for every limit and every `n` a run exists that loses `n` claims and fails at attempt `max + n` |
| OutboxChannel.PoisonPillIsClaimedForEver | marketplace_alert/core/persistence/notification_outbox.py:185-219 | for every `n` a row whose worker always dies can be claimed and sent `n` times, whatever the limit |
| OutboxChannel.CompletionsRecordTheHolder | marketplace_alert/core/persistence/notification_outbox.py:262-278 | when no completion comes after its row was reclaimed, the columns always tell what became of the last claim |
| OutboxChannel.TerminalIsAbsorbing | marketplace_alert/core/persistence/notification_outbox.py:188-278 | under the same condition a sent or failed row never changes again, whatever follows |
| OutboxChannel.LeavesSentIff | marketplace_alert/core/persistence/notification_outbox.py:262-278 | without it: the steps that take a row out of `sent` are exactly the completions of held claims whose send was not accepted |
| OutboxChannel.LateRefusalReopensSentRow | marketplace_alert/core/persistence/notification_outbox.py:262-278 | such a run exists, and the row is then delivered twice |
| OutboxChannel.LeavesFailedIff | marketplace_alert/core/persistence/notification_outbox.py:262-278 | the steps that take a row out of `failed` are exactly the completions of held claims that were accepted, wait for a destination, or come under a limit above the count |
| OutboxChannel.LateReportRevivesFailedRow | marketplace_alert/core/persistence/notification_outbox.py:262-278 | such runs exist: a failed row becomes sent, or waits again |
| OutboxChannel.ClaimsAreALeaseApart | marketplace_alert/core/persistence/notification_outbox.py:188-219 | two claims of a row with no completion between them are more than the lease apart |
| OutboxChannel.NeverStranded | marketplace_alert/core/persistence/notification_outbox.py:188-201 | a reachable row that is not sent or failed is claimable at once after a genuine failure, from its last attempt plus the delay when it waits, and just after its lease when abandoned; a finished row never is |
| OutboxChannel.ClaimHoldsForItsLease | marketplace_alert/core/persistence/notification_outbox.py:185-230 | a claim counts one attempt, keeps the other columns, and keeps the row from every later claim until just after its lease |
| OutboxChannel.ReportDecidesTheRow | marketplace_alert/core/persistence/notification_outbox.py:262-278 | after any run: a report of a taken message makes the row sent as of now; one that waits for a destination gives its attempt back and is due after the delay; any other error fails the row at the limit and is due at once below it |
| OutboxChannel.RetriedAtOnceIff | marketplace_alert/core/persistence/notification_outbox.py:188-201 | a refused row is claimable at once if and only if an error other than the waiting one was recorded: a null error would be throttled |
| OutboxTable.ConcurrentClaimsAreDisjoint | marketplace_alert/core/persistence/notification_outbox.py:197-219 | claim transactions open at the same time never hold the same row, on either channel |
| OutboxTable.OldestFirstInEitherGroup | marketplace_alert/core/persistence/notification_outbox.py:202-210 | a row of a batch, against a later one of it or a due row left out, has never been attempted unless the other has; among those never attempted, and among the others, it is no younger; and nothing is left out while there is room |
| OutboxTable.RowIsAChannelRun | marketplace_alert/core/persistence/notification_outbox.py:144-384 | in every run of the whole table, what happened to a row on a channel is by itself a legal run of that channel and leads to the row's columns and log, so every one-row law holds of every row |
| OutboxTable.EveryRowOfEveryRun | marketplace_alert/core/persistence/notification_outbox.py:185-278 | every row of every table run obeys the send bound, with exactly one send for a sent row that lost no claim, and has the exact attempt count |
| OutboxTable.RowAttemptLimit | marketplace_alert/core/persistence/notification_outbox.py:262-278 | every row obeys the attempt limit, stretched by its lost claims only |
| OutboxTable.NoRowIsStranded | marketplace_alert/core/persistence/notification_outbox.py:188-201 | when each row of the table can be claimed next |
| OutboxTable.RowTellsItsLastClaim | marketplace_alert/core/persistence/notification_outbox.py:262-278 | while no completion of it is late, a row's columns tell what became of its last claim |
| OutboxTable.FinishedRowStays | marketplace_alert/core/persistence/notification_outbox.py:188-278 | under the same condition a sent or failed row that is not deleted keeps its columns, whatever happens on the table |
| OutboxTable.FinishedRowReopensIff | marketplace_alert/core/persistence/notification_outbox.py:262-278 | of all steps on the table, exactly these completions of that row take it out of `sent` or `failed` |
| OutboxTable.RowClaimsAreALeaseApart | marketplace_alert/core/persistence/notification_outbox.py:188-219 | two claims of a row with no completion between them are more than the lease apart |
| OutboxTable.ChannelsDoNotInterfere | marketplace_alert/core/persistence/notification_outbox.py:217-384 | deleting every step of one channel leaves a possible run with the other channel's columns, claims, sends and counters unchanged; claim order too, when claim transactions of the two do not overlap |
| OutboxTable.OverlappingClaimPassesOver | marketplace_alert/core/persistence/notification_outbox.py:197-210 | that last condition is needed: a push claim in flight changes what a Telegram claim takes |
| OutboxFairness.NeverAttemptedRowIsClaimed | marketplace_alert/core/persistence/notification_outbox.py:202-230 | a never-attempted row with `k` such rows created no later is claimed within `ceil((k + 1) / limit)` claim calls, whatever backlog is being retried |
| OutboxRepository.Repository.SelectDue | marketplace_alert/core/persistence/notification_outbox.py:185-210 | the claim query returns due, unlocked rows once each, at most the limit, never-attempted ones first and the older ones first in either group, and leaves a due row out only when the batch is full of rows that come no later in that order |
| OutboxRepository.Repository.ClaimBatch | marketplace_alert/core/persistence/notification_outbox.py:144-230 | claiming takes the rows of that query in its order, writes their Telegram columns and nothing else, and is a fair claim transaction of the step system |
| OutboxRepository.Repository.Complete | marketplace_alert/core/persistence/notification_outbox.py:232-279 | completion sets one row's Telegram columns by outcome and error, leaves every other column and row, and ignores a deleted row |
| OutboxRepository.Repository.ClaimPushBatch | marketplace_alert/core/persistence/notification_outbox.py:281-345 | the same for push claims |
| OutboxRepository.Repository.CompletePush | marketplace_alert/core/persistence/notification_outbox.py:347-384 | the same for push completions |
| OutboxRepository.CompletionRefinesStep | marketplace_alert/core/persistence/notification_outbox.py:262-279 | a worker reporting its own claim takes the completion step of that claim, so the laws of runs hold of this code |
| Drain.DeliverPush | marketplace_alert/core/notifications/outbox.py:604-651 | every device is tried; the row counts as delivered exactly when one took the message, else the last device's error is kept |
| Drain.DrainPendingNotifications | marketplace_alert/core/notifications/outbox.py:365-455 | a drain pass claims the due rows, oldest first, delivers by each row's own route, completes each row with its own outcome, counts each row once, and is a legal run of the step system |
| Drain.DrainPendingPushNotifications | marketplace_alert/core/notifications/outbox.py:654-707 | the same of the push pass, which sends to all devices of each row's owner |
| Drain.SendsReachOnlyTheOwner | marketplace_alert/core/notifications/outbox.py:218-284 | a pass sends a row to the chat of the row's own owner, as the tables stand at its turn, or to nobody, and at most once |
| Drain.PushSendsReachOnlyTheOwner | marketplace_alert/core/notifications/outbox.py:529-578 | a push send goes to a registered device of the row's own owner |
| Drain.DevicesAreTheUsers | marketplace_alert/core/notifications/outbox.py:563-576 | a user's destinations are exactly the user's devices |
| Drain.TallyIsComplete | marketplace_alert/core/notifications/outbox.py:690-705 | the four counters add up to the rows handled; `sent` counts the deliveries, `awaiting` the missing destinations and `unresolved` the missing owners |
| DrainOutcomes.PassDecidesEachRow | marketplace_alert/core/notifications/outbox.py:218-455 | after a pass a row is sent if and only if its owner has a non-empty chat at the row's turn and the provider took the message, and the provider is called for it if and only if there is such a chat; a provider that raised is quoted, a missing chat or owner is named, only the chat is waited for, and no other column changes |
| DrainOutcomes.PushPassDecidesEachRow | marketplace_alert/core/notifications/outbox.py:529-707 | the same of a push pass: sent if and only if one of the owner's devices took the push, else the last device's error, the missing device or the missing owner; the provider is called for exactly the owner's devices |
| DrainOutcomes.DestinationPerDevice | marketplace_alert/core/notifications/outbox.py:563-576 | a user has as many destinations as devices |
| DrainOutcomes.DestinationOfDevice | marketplace_alert/core/notifications/outbox.py:563-576 | a device has the place among the destinations that it has among the user's devices, with its token and its own channel or the default one |
| DrainOutcomes.CountersCountRows | marketplace_alert/core/notifications/outbox.py:423-455 | the counters of a pass, read off the table it leaves: rows that are sent, that wait, that have no owner, and the rest |
| OwnerStamping.StampKeepsRoutes | marketplace_alert/core/persistence/notification_user_backfill.py:83-168 | stamping changes neither where a row's Telegram alert goes nor which devices get its push |
| OwnerStamping.StampWritesTheOwner | marketplace_alert/core/persistence/notification_user_backfill.py:83-168 | stamping writes the owner of the discovering search on rows that name nobody, and no other column |
| OwnerStamping.StampTwiceIsStampOnce | marketplace_alert/core/persistence/notification_user_backfill.py:111-168 | a second run finds nothing to stamp |
| OwnerStamping.StampedRowsSurviveTheirSearch | marketplace_alert/core/persistence/notification_user_backfill.py:83-108 | once the discovering search is deleted, a stamped row keeps its owner, and an unstamped one loses it exactly when its owner came from that search |
| OwnerStamping.CommitSucceedsIff | marketplace_alert/core/persistence/models.py:325-336 | the stamped table satisfies the unique constraint if and only if no listing has a row to stamp beside an ownerless row or the owner's own row |
| OwnerStamping.CollisionHappens | marketplace_alert/core/persistence/notification_user_backfill.py:111-168 | an old ownerless row beside the owner's own row makes the commit fail |
| OwnerStamping.StampRows | marketplace_alert/core/persistence/notification_user_backfill.py:111-168 | the loop stamps exactly the resolvable rows, and its counters number the ownerless rows without a discovering search, with a deleted one and with an unowned one |
| OwnerStamping.RunNotificationUserBackfill | marketplace_alert/core/persistence/notification_user_backfill.py:111-168 | a dry run changes nothing and announces the number an apply run updates; an apply run commits all stamps or, on a collision, none; every number of the report counts its own rows |
| ScanTables.MatchesDecideTheOutbox | marketplace_alert/core/saved_searches/runner.py:172-198 | tables that keep the link and have the same matches have the same outbox rows |
| ScanRace.OutboxFollowsMatches | marketplace_alert/core/persistence/repository.py:70-111 | after any run of concurrent scans, however their inserts raced: a user has exactly one row for a listing if a search of theirs matched it and none otherwise, ownerless rows number the ownerless searches that matched, and the attributions are those of the committed scans |
| ScanRace.SameMatchesSameTables | marketplace_alert/core/persistence/listing_attribution_repository.py:33-71 | confluence: runs that committed the same matches, in any order, leave the same listings, attributions and outbox rows |
| ScanPipeline.Database.GetOrCreate | marketplace_alert/core/persistence/repository.py:70-111 | reports `created` exactly for an unknown listing, and otherwise changes nothing |
| ScanPipeline.Database.RecordIfMissing | marketplace_alert/core/persistence/listing_attribution_repository.py:33-71 | reports `created` exactly for a new (search, listing) pair |
| ScanPipeline.Database.Enqueue | marketplace_alert/core/persistence/notification_outbox.py:78-142 | one row per user and listing; without a user always one more row |
| ScanPipeline.Database.ProcessListings | marketplace_alert/core/persistence/service.py:66-118 | the loop leaves the tables and the report that `Discovered` and `Report` say |
| ScanPipeline.Database.Scan | marketplace_alert/core/saved_searches/runner.py:165-198 | and enqueueing the new attributions leaves `Scanned` |
| ScanPipeline.ReportIsExact | marketplace_alert/core/persistence/service.py:102-118 | every listing is new or seen; the new ones are the unknown keys, each once, and the newly attributed ones exactly those the search had not matched, each once |
| ScanPipeline.FirstsKeepOrder | marketplace_alert/core/persistence/service.py:102-118 | the lists of a report keep the order in which the listings were met |
| ScanPipeline.ScanWrites | marketplace_alert/core/saved_searches/runner.py:165-198 | what a scan leaves of every table: a listing it met is there, with this search and time if it is new; this search has matched it; and it is alerted to the owner, or counted as ownerless, exactly if the search had not matched it before |
| ScanPipeline.ScanKeepsLinks | marketplace_alert/core/saved_searches/runner.py:172-198 | a scan keeps the link between matches and outbox rows |
| ScanPipeline.EveryMatchAlertsItsOwner | marketplace_alert/core/saved_searches/runner.py:172-198 | a listing discovered by somebody else's search still alerts the owner of a search that matches it |
| ScanPipeline.RescanIsQuiet | marketplace_alert/core/persistence/service.py:102-118 | scanning the same listings again creates nothing and alerts nobody |
| ScanPipeline.ScansCommute | marketplace_alert/core/saved_searches/runner.py:165-198 | two scans, of the same or different searches, leave the same tables in either order |
| ScanPipeline.FirstDiscoveryStands | marketplace_alert/core/persistence/repository.py:99-116 | who discovered a listing and when is never rewritten; only the last sighting moves |
| Coalescing.ScanFetchCache.Fetch | marketplace_alert/core/saved_searches/coalescing.py:45-61 | the answer, or the exception, is the marketplace's; the listings are new objects the cache does not hold; every call is counted as one fetch or one reuse |
| Coalescing.ScribbleAndFetchAgain | marketplace_alert/core/saved_searches/coalescing.py:22-24 | a caller that changes every listing it got spoils no later answer |
| Coalescing.RunOneMarketplace | marketplace_alert/core/saved_searches/runner.py:127-215 | with or without a cache: afterwards the search has matched what it had and the relevant listings of the answer, nothing else; `raw` numbers the answer and `rejected` its irrelevant listings; on failure the tables are unchanged |
| Coalescing.RelevantListingsAreStored | marketplace_alert/core/saved_searches/runner.py:165-198 | the relevant listings of the answer, and they alone, are stored, attributed to the search and alerted to its owner; a failed answer leaves all tables as they were |
| Coalescing.MarketplaceRunTells | marketplace_alert/core/saved_searches/runner.py:143-215 | the report of a marketplace: raw, rejected, new and seen listings of an answer, or the connector's message, or the fixed text of an unexpected error |
| Coalescing.RunPass | marketplace_alert/core/saved_searches/runner.py:96-163 | a whole pass leaves the same tables and returns the same results with a shared cache as without one |
| Coalescing.CoalescedPass | marketplace_alert/core/saved_searches/coalescing.py:37-61 | fetches number the distinct (marketplace, query) pairs, and fetches and reuses together the calls |
| Coalescing.PassMatchesExactly | marketplace_alert/core/saved_searches/runner.py:96-163 | after a pass a search has matched what it had matched before and the relevant listings its own query finds on its own marketplaces |
| Coalescing.PassReportsInOrder | marketplace_alert/core/saved_searches/runner.py:96-125 | one report per due search, in order, each from the tables as the searches before it left them |
| Coalescing.SearchReportsInOrder | marketplace_alert/core/saved_searches/runner.py:109-125 | one report per marketplace of the search, in order, each from the tables as the marketplaces before it left them |
| Coalescing.PassAsks | marketplace_alert/core/saved_searches/coalescing.py:37-61 | a pass calls each marketplace of each due search with that search's query, and makes no other call |
| Coalescing.PassKeepsLinks | marketplace_alert/core/saved_searches/runner.py:172-198 | whole passes keep the link between matches and outbox rows |
| AuthService.AuthService.Login | marketplace_alert/core/auth/service.py:267-339 | a token is issued if and only if the account exists and is active, the password is right and no lock is still running; the account of a refused call keeps its state when inactive or locked, and otherwise counts one failure, from one after an expired lock, and locks at the limit; the new row is the account's and lives one token life |
| AuthService.AuthService.Refresh | marketplace_alert/core/auth/service.py:341-379 | a token is exchanged if and only if it is known, unrevoked, not expired and its user active; then it is revoked and one row with a full life added for the same user; reuse revokes the user's tokens and nobody else's; every other refusal writes nothing |
| AuthService.AuthService.Logout | marketplace_alert/core/auth/service.py:381-391 | revokes that token alone, keeps an earlier revocation time, ignores an unknown token |
| AuthService.AuthService.RequestPasswordReset | marketplace_alert/core/auth/service.py:393-434 | a code is issued if and only if the account is active, none was issued within the cooldown, fewer than the limit within the hour, and the draw was never held; a repeated code rolls the superseding update back |
| AuthService.AuthService.ResetPassword | marketplace_alert/core/auth/service.py:436-496 | a reset uses up an unused, unexpired code of the active user below its cap that is the code presented, and takes eight characters; any other six digits are wrong and counted against the user's only such code; users and tokens change on success only |
| AuthService.ResetSignsOutEverywhere | marketplace_alert/core/auth/service.py:485-496 | after a reset no token the user had refreshes, and no code of theirs works, given that only the newest was unused |
| LoginLockout.GuessRate | marketplace_alert/core/auth/service.py:304-339 | after any history, in a stretch no longer than the lockout in which nobody logs in, at most the limit of wrong passwords is compared |
| LoginLockout.LimitIsReached | marketplace_alert/core/auth/repository.py:67-87 | the bound is met: what is left of the limit, all of it after an expired lock, is compared; then the right password is turned away until exactly the end of the lock, and clears the account from there on |
| LoginLockout.InactiveIsUntouched | marketplace_alert/core/auth/service.py:304-322 | an inactive account never logs in, and no number of attempts changes it |
| RefreshTokens.ExchangedAtMostOnce | marketplace_alert/core/auth/service.py:341-379 | over any run no refresh token is exchanged twice |
| RefreshTokens.FamilyHasOneLiveToken | marketplace_alert/core/auth/service.py:341-379 | of the tokens that descend from one login only the newest can be unrevoked |
| RefreshTokens.ReuseIsDetectedIff | marketplace_alert/core/auth/service.py:361-371 | reuse is reported exactly for tokens that were exchanged, logged out, or swept by an earlier detection or reset |
| RefreshTokens.RotationPreservesCount | marketplace_alert/core/auth/service.py:376-379 | a successful refresh leaves every user's number of unrevoked tokens as it was |
| RefreshTokens.RevocationIsFinal | marketplace_alert/core/auth/repository.py:118-139 | over any run a token keeps its user and expiry, and a revocation time is never cleared or overwritten |
| RefreshTokens.SweepIsForEver | marketplace_alert/core/auth/service.py:367-371 | after a reuse or a reset no token the user had by then ever refreshes again |
| RefreshTokens.TheftEndsTheSession | marketplace_alert/core/auth/service.py:367-371 | presenting an exchanged token again revokes every token of the account, the thief's and the victim's |
| RefreshTokens.EveryTokenWasIssued | marketplace_alert/core/auth/service.py:514-521 | every row was issued by a login of its user or by the exchange of an earlier token of the same user, and expires one token life after that |
| RefreshTokens.ExchangesAreInTime | marketplace_alert/core/auth/service.py:361-379 | over any run: a token was exchanged less than its life after it was issued, while its user was active and it was not revoked |
| ResetCodes.OneUnusedCodeACooldownApart | marketplace_alert/core/auth/service.py:408-434 | over any run at most one code of a user is unused, the newest, and codes are issued at least the cooldown apart |
| ResetCodes.HourlyCap | marketplace_alert/core/auth/service.py:419-422 | any closed hour, wherever it starts, holds at most the hourly number of issues |
| ResetCodes.WrongGuessesPerHour | marketplace_alert/core/auth/service.py:463-483 | in any closed hour the wrong codes compared for a user number at most (1 + codes an hour) times the attempts a code |
| ResetCodes.RedeemedOnce | marketplace_alert/core/auth/repository.py:251-292 | no code is redeemed twice |
| ResetCodes.IssuedCodeRedeems | marketplace_alert/core/auth/service.py:424-496 | after any run an issued code can be redeemed until it expires, and then no code of the user works before the next issue |
| ResetCodes.WeakPasswordKeepsTheCode | marketplace_alert/core/auth/service.py:480-483 | a rejected weak password leaves the code usable |
| ResetCodes.DrawsAreCodes | marketplace_alert/core/auth/security.py:149-162 | every draw gives six digits, and different draws give different codes |
| ResetCodes.CodeSpellsItsDraw | marketplace_alert/core/auth/security.py:149-162 | the digits read as a number give the draw back |
| ResetCodes.AttemptDecides | marketplace_alert/core/auth/service.py:456-496 | what each verdict means on the rows: which code has to match, how long the password is, and what is written |
| ResetCodes.OtherCodesAreWrong | marketplace_alert/core/auth/service.py:475-478 | six digits that differ from every redeemable code of an active user, those being below the cap, are wrong and counted against that code |
| ResetCodes.RequestDecides | marketplace_alert/core/auth/service.py:408-434 | a request is refused exactly for an inactive account, within the cooldown, or with the limit reached in the last hour; an issued code is the draw, lives the configured time, and uses up every other unused code of the user |
| ResetCodes.ResetsAreLogged | marketplace_alert/core/auth/service.py:485-496 | every reset uses up the user's newest redeemable code and is logged under it |
| ResetCodes.RedeemedByItsOwnSecret | marketplace_alert/core/auth/service.py:463-496 | over any run every redeemed code was redeemed by an attempt of its own active user with its own digits, before it expired |
| QueryParsing.CompactWindows | marketplace_alert/core/relevance/normalization.py:164-173 | yields exactly the concatenations of 1 to `max_len` consecutive tokens |
| QueryParsing.FindBrands | marketplace_alert/core/relevance/engine_v2.py:187-203 | the loop finds the spans of `BrandSpans` |
| QueryParsing.SpansAreBrands | marketplace_alert/core/relevance/engine_v2.py:187-203 | every span is a brand phrase, the longest that starts there, and spans do not overlap |
| QueryParsing.NoBrandIsOverlooked | marketplace_alert/core/relevance/engine_v2.py:187-203 | wherever a brand phrase starts, a span covers that word |
| QueryParsing.ParseQuery | marketplace_alert/core/relevance/engine_v2.py:206-250 | the loops compute `Parsed` |
| QueryParsing.IdentifiersAreAlwaysRequired | marketplace_alert/core/relevance/engine_v2.py:206-250 | a part of the query with a digit always becomes one required term, in compact form; it is never a stop word or a brand |
| QueryLaws.ItemsFollowChunks | marketplace_alert/core/relevance/engine_v2.py:208-222 | chunk by chunk: one identifier if any token has a digit, else one word per token |
| QueryLaws.ParsedIsRead | marketplace_alert/core/relevance/engine_v2.py:224-250 | the terms are exactly the items that name no brand and are no stop word beside other words, in order, with display, stem, compact form and weight 1, 2 or 3; the brands are those a span of words names |
| QueryLaws.QuantityIff | marketplace_alert/core/relevance/normalization.py:36-148 | a quantity is a number, or one with an x before or behind it |
| QueryLaws.StrongIff | marketplace_alert/core/relevance/normalization.py:155-161 | a strong identifier has two letters and two digits |
| QueryLaws.JoinedConcatenates | marketplace_alert/core/relevance/normalization.py:164-173 | joined tokens are their concatenation, in order |
| QueryLaws.WindowIff | marketplace_alert/core/relevance/normalization.py:164-173 | a window is 1 to `max_len` tokens in a row |
| Relevance.UnrequestedAccessories | marketplace_alert/core/relevance/engine_v2.py:269-287 | reports something exactly when the title has an unrequested accessory word that is not included, counted or joined to an excused one |
| Relevance.RescueSplitForms | marketplace_alert/core/relevance/engine_v2.py:407-450 | leaves exactly the missing terms in no run that spells an identifier or an initialism of the title |
| Relevance.Evaluate | marketplace_alert/core/relevance/engine_v2.py:290-404 | the engine returns `Evaluated`: every branch, score and reason |
| Relevance.AcceptedListingsMatch | marketplace_alert/core/relevance/engine_v2.py:290-404 | acceptance implies: every identifier is spelled by at most four consecutive title tokens, alone or in a run of two to four adjacent terms; of `n` plain words at most `max(0, (n - 1) // 3)` are unaccounted for; no brand conflict; no penalty if the threshold is over 50 |
| Relevance.FullMatchIsAccepted | marketplace_alert/core/relevance/engine_v2.py:290-404 | a title with every term, in any order, no penalty and no other brand is accepted at any threshold up to 78 |
| Relevance.ProductIsBounded | marketplace_alert/core/relevance/engine_v2.py:330-362 | matched weight never exceeds the total, rescues included, so the product part is 0 to 70 |
| Relevance.ScoresAndBrands | marketplace_alert/core/relevance/engine_v2.py:290-404 | every score is 0 to 100, and an accepted title that names brands names a queried one |
| RelevanceLaws.VerdictIsJudged | marketplace_alert/core/relevance/engine_v2.py:290-404 | for every query, title, description and threshold: which branch answers, with the fixed scores 0, 15, 60 and 85 of the early ones, and the judgement on terms with 15 or 8 brand points |
| RelevanceLaws.TermsAreJudged | marketplace_alert/core/relevance/engine_v2.py:330-404 | the judgement on terms, without the engine's functions: missing identifiers first, strong ones with their own reason; then more than `max(0, (n - 1) // 3)` missing words; then the five parts within 0 to 100 against the threshold, a penalty being the reason before a low score |
| RelevanceLaws.ProductIsTheShare | marketplace_alert/core/relevance/engine_v2.py:330-362 | the product part is 70 times the credited weight over the weight, to the nearest integer with halves to even: full weight for a term found, six tenths for a related one, full weight again for one found in a run |
| RelevanceLaws.BonusIsEarned | marketplace_alert/core/relevance/engine_v2.py:253-266 | the order bonus is 10 for the one word of a query, 15 for all of several in a row, 8 for all of them near each other, and else nothing |
| RelevanceLaws.SellsIff | marketplace_alert/core/relevance/engine_v2.py:269-287 | an accessory counts against the title if and only if no list of unrequested accessories, joined by conjunctions and begun within four words of an inclusion marker or right after a quantity, leads up to it |
| RelevanceLaws.TargetIff | marketplace_alert/core/relevance/engine_v2.py:379-391 | the title only names a target if and only if it has a plain word of the query and has all of those after its first marker, "for sale" being none |
| RelevanceLaws.BrandsAreNamed | marketplace_alert/core/relevance/engine_v2.py:187-203 | the brands of a text are those of phrases in it, and there are some if a brand phrase occurs |
| MetadataBackfill.Backfill.RunBackfill | marketplace_alert/core/persistence/backfill.py:303-505 | the loop, with its connector look-up, breaker, enrichment and per-row commits, leaves the rows and the summary of `Ran` |
| MetadataBackfill.DryRunPredictsApply | marketplace_alert/core/persistence/backfill.py:253-300 | a dry run writes nothing, asks the same questions and returns the summary of the apply run but for the flag, breaker skips included |
| MetadataBackfill.CountersAddUp | marketplace_alert/core/persistence/backfill.py:323-505 | the six counters add up to the candidates considered |
| MetadataBackfill.NoQueryAfterAuthError | marketplace_alert/core/persistence/backfill.py:341-431 | in one run a marketplace is not asked again after it refused the credentials |
| MetadataBackfill.RunsOnlyImprove | marketplace_alert/core/persistence/backfill.py:253-300 | over any sequence of runs a field only goes from null to a value, identity columns stay, and a row with a terminal status is never touched |
| MetadataBackfill.RunRemovesTheSettled | marketplace_alert/core/persistence/repository.py:293-350 | an apply run removes from the candidates exactly the rows that its summary reports as settled, and as many as it counts |
| MetadataBackfill.RunsEmptyTheCandidates | marketplace_alert/core/persistence/repository.py:293-350 | when no lookup fails and none is unconfigured, `k` runs leave `max(0, n - k * limit)` of `n` candidates |
| BackfillOutcomes.SelectionIs | marketplace_alert/core/persistence/repository.py:293-350 | a row is taken up if and only if it is pending or failed, lacks a field, is of the marketplace asked for, and fewer than `limit` such rows were found later |
| BackfillOutcomes.LatestFirst | marketplace_alert/core/persistence/repository.py:293-350 | rows are taken up in the order of their discovery, latest first, then by id |
| BackfillOutcomes.EveryRowAfterARun | marketplace_alert/core/persistence/backfill.py:253-491 | every row after an apply run: untouched if not taken up, cut off or unconfigured, and otherwise with the status that answers to the marketplace's reply and with exactly the missing fields it offered |
| BackfillOutcomes.EveryLineOfTheReport | marketplace_alert/core/persistence/backfill.py:341-505 | the report has a line for each row taken up, in order, with the outcome that reply calls for |
| BackfillOutcomes.CountersCountLines | marketplace_alert/core/persistence/backfill.py:341-505 | each counter counts the lines of its own kind, breaker skips among the failed |
| BackfillOutcomes.FillCountsCountRows | marketplace_alert/core/persistence/backfill.py:465-475 | for each field, the number of rows in which it was filled |
| BackfillOutcomes.FilledInOrder | marketplace_alert/core/persistence/backfill.py:253-285 | the fields of a line come once each, in column order |
| BackfillOutcomes.SkippedMarketsAreTold | marketplace_alert/core/persistence/backfill.py:224-250 | the marketplaces noted as skipped are those of rows taken up that cannot be asked, each with its reason |
| BackfillOutcomes.AskedForIff | marketplace_alert/core/persistence/backfill.py:341-431 | the requests of a run are those for the rows taken up whose marketplace is ready and has not cut them off |
| BackfillProgress.StaysIff | marketplace_alert/core/persistence/backfill.py:341-491 | a candidate stays one after an apply run unless fewer than `limit` candidates are newer, its look-up settles it and no newer one of its marketplace trips the breaker |
| BackfillProgress.SettledEventuallyIff | marketplace_alert/core/persistence/backfill.py:341-491 | for every candidate and whatever the answers, exactly when some number of runs settles it |
| BackfillProgress.SettledEventuallyIffNoAuthError | marketplace_alert/core/persistence/repository.py:293-350 | without authentication errors: if and only if its look-up settles it and fewer than `limit` newer candidates fail to |
| BackfillProgress.EmptiedEventuallyIff | marketplace_alert/core/persistence/repository.py:293-350 | enough runs empty the candidates if and only if there are none, or the limit is positive and every candidate's look-up settles it |
| BackfillProgress.OlderRowStarves | marketplace_alert/core/persistence/backfill.py:369-400 | a concrete row that one look-up would settle and no number of runs reaches, behind a row that is unconfigured or always fails |
| OwnedPagination.SortIsStrictTotal | marketplace_alert/core/persistence/repository.py:263-291 | every sort mode orders the rows strictly and without ties |
| OwnedPagination.NullPricesLast | marketplace_alert/core/persistence/repository.py:263-291 | rows without a price come last in both price sorts |
| OwnedPagination.ResultIsInOrder | marketplace_alert/core/persistence/repository.py:263-291 | the four orders on the columns: newest, oldest, cheapest and dearest first, unpriced last, ties by newest and then by id |
| OwnedPagination.MatchingIff | marketplace_alert/core/persistence/repository.py:199-261 | a listing is in the result if and only if a search of the user's, the named one if any, has matched it and it lies within every bound, bounds included |
| OwnedPagination.PageIs | marketplace_alert/core/persistence/repository.py:433-478 | a page holds at most `limit` rows, row `k` of it being row `offset + k` of the result |
| OwnedPagination.PagesAreExact | marketplace_alert/core/persistence/repository.py:433-516 | all pages together give every matching owned listing exactly once, in order, and as many as `count_owned` says |
| OwnedPagination.ForeignSearchShowsNothing | marketplace_alert/core/persistence/repository.py:379-431 | filtering by another user's search shows nothing |
| OwnedPagination.PriceBoundsHideUnpriced | marketplace_alert/core/persistence/repository.py:199-261 | with a price bound no listing without a price is shown |
| OwnedPagination.EarliestSearchIds | marketplace_alert/core/persistence/listing_attribution_repository.py:73-118 | exactly the listings with an attribution of the user's are reported, each under the search of the first by time and id |
| OwnedPagination.ShownPage | marketplace_alert/core/persistence/repository.py:433-478 | every row of a page is reported under the search of the user's own that matched it first, by time and then by id |
| OrderBy.OrderIsUnique | marketplace_alert/core/persistence/repository.py:263-291 | a strict order leaves the database no choice in the order of a result |
| Cadence.SavedSearches.RunPass | marketplace_alert/core/saved_searches/repository.py:133-170 | a pass stamps with its start time exactly the active searches never scanned, or scanned at least the interval ago less the grace, of which no more than half the interval counts |
| Cadence.DueIff | marketplace_alert/core/saved_searches/repository.py:146-170 | when a search is due, for a grace that is nothing, part of the interval, or more than half of it |
| Cadence.ScheduledScansAreSpaced | marketplace_alert/core/saved_searches/repository.py:146-170 | a scheduled scan comes at least `interval - min(grace, interval / 2)`, hence half an interval, after every earlier scan, manual ones included |
| Cadence.EveryMthPass | marketplace_alert/core/saved_searches/repository.py:146-170 | a search of `m` periods is scanned by exactly every `m`-th pass, for ever, within the tolerated jitter |
| Cadence.CadenceIff | marketplace_alert/core/saved_searches/repository.py:149-170 | every steady schedule keeps that cadence if and only if the grace tolerates the jitter |
| Cadence.JitterBeyondGraceSkips | marketplace_alert/core/saved_searches/repository.py:149-157 | with more jitter than grace, a steady schedule on which the search is not scanned by exactly every `m`-th pass |
| Cadence.JitterBeyondPeriodScansEarly | marketplace_alert/core/saved_searches/repository.py:149-157 | the same with one pass too few in reach of grace and jitter |

## Left out

- Connectors, HTTP, OAuth, the Telegram, Expo and mail providers: a call returns or raises as it likes. A provider that takes
  a message and still raises counts as a refusal.
- bcrypt, SHA-256, JWT, random generation and the timing of logins: hashes are injective, tokens fresh, access tokens absent.
- Email normalization, signup, account deletion and `get_current_user`: calls name the account that a look-up found.
- Unicode normalization, stemming and the brand, accessory, marker and family vocabularies: parameters of `Lexicon`.
- Texts of errors, beyond which reserved text they equal; log output; titles and other descriptive columns.
- `metadata_backfill_attempted_at`, pauses between requests and `reset_backfill_status`, which makes terminal rows pending again.
- Matched and missing term lists of the relevance result, and float rounding of its shares.
- Currency, condition and location filters of the listing pages: one three-valued parameter, `Filter.text`.
- The list of search results by page for everybody (`list_recent`), which differs in its ownership clause only.
- Concurrency inside `complete`, `refresh`, `login` and the reset calls: each is one atomic step. The claim locks of the outbox
  and the insert races of scans are the two that are split.
- ScanRace.OutboxFollowsMatches: searches are created but not edited or deleted, and a deadlock between two scans that wait for
  each other's inserts shows as runs that go on by aborting one of them.
- ScanPipeline.Database.GetOrCreate: no other transaction races it; the unique violation and the re-read are in `ScanRace`.
- ScanPipeline.Database.RecordIfMissing: the same.
- ScanPipeline.Database.Enqueue: the same.
- ScanPipeline.Database.ProcessListings: one clock reading stands for those of the loop, and no other transaction races it; the races are in `ScanRace`.
- RefreshTokens.SweepIsForEver: one clock reading per call.
- Cadence.SavedSearches.RunPass: listing the due searches and stamping them is one step, with no manual run in between.
- OutboxFairness.NeverAttemptedRowIsClaimed: for runs in which rows enqueued meanwhile are newer, the claims of the channel commit, claimed rows that were
  never attempted complete before their leases run out, and the other channel's claim transactions do not overlap these claims.
