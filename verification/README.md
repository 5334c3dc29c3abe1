# Verification of the session, queue, token and moderation services

A Dafny model of the backend's stateful core, with proofs of what it keeps over whole runs. Redis is a
set of string keys with expiry (`Redis`), sorted sets (`SortedSet`) and a clock; the database is a set of
maps. Protocols are state machines (`State`, `Enabled`, `Apply`, `IsRun` over a list of states and the list
of actions between them), and a theorem about a run holds for every run of any length, any number of users,
sessions and calls. The services' own methods are Dafny methods that update fields, each proved against the
operations the machines are made of.

Two granularities are used. Where the interleaving of single Redis or SQL commands matters, one action is
one command: `DecisionProtocol`, `Leases`, `QueueInterleaving`, `RefreshFamilies`, `WebhookDedupe` and
`AutomaticBans`. Where whole operations are accounted for, one action is one operation: `SessionLifecycle`,
`Queue`, `Ledger` and `Arrivals`.

| module | what it covers |
|---|---|
| `Redis`, `Text`, `SortedSet` | keys with expiry, JavaScript's string order, sorted sets |
| `DecisionProtocol` | any number of submissions, timers and recoveries deciding sessions, command by command |
| `SessionLifecycle`, `SessionOutcomes`, `SessionService` | start, end, choice window, decision, crash, recovery; why each session is decided as it is; the service itself |
| `Leases` | per-user lock leases with expiry |
| `QueueInterleaving` | joins, leaves, removals and workers, command by command, with lapsed locks |
| `Queue`, `QueueContents`, `QueueService`, `MatchingWorker` | the operations, what they leave by contents, the service, the worker's loop and tick |
| `Ledger`, `Arrivals`, `PaymentsService` | where every token goes; who is served first; Stripe deliveries |
| `RefreshFamilies`, `RefreshService` | refresh-token rotation with reuse detection; the service |
| `WebhookDedupe`, `AutomaticBans`, `ModerationService` | webhook replay window, bans and their cooldown; the service |
| `StableStringify`, `QueueKeys` | the canonical text of preferences; city slugs and queue keys |
| `TokenBytes`, `AccessToken` | the bytes of a video token; the classes that write them |

A Redis key is live while `now <= expiresAt`. The repository's own Redis mock
(`test/mocks/redis.mock.ts:87-103`) drops a key one millisecond earlier; every bound below is for the longer
life.

Properties that are false of the code, each with a witness and the condition under which the code does
meet it:

- A call that lost the SET NX of a decision emits an outcome of its own exactly when the decision has
  lapsed (two hours later) before it reads again: `LoserEmitsIffLapsed`, `LateLoserReachable`.
- `README.md:438` of the repository promises a refund on leaving "if no match was made". The code refunds
  exactly a queued user without a live matched marker, and joining does not clear the marker, so a user
  matched within the last hour who joins again and leaves unmatched loses the token:
  `LeaveRefundsIff`, `RejoinAfterMatch`, `RejoinForfeits`.
- `README.md:431` and `README.md:433` promise that a reuse ends the refresh family and that a logout revokes
  all tokens. At READ COMMITTED, which is the database's default and which the code does not change, an
  `updateMany` does not reach a row that a rotation commits after it has started. It ends a family exactly if
  no rotation in it was committed meanwhile, or nothing in it was usable anyway:
  `RevocationEndsFamilyIff`, `ReuseMissesRotation`, `LogoutMissesRotation`.
- Three events do not always ban. A call that is suppressed between the two commands of another call
  returns with the user not banned, and if that other call never continues, the cooldown lapses with no ban;
  without overturned appeals, a suppressed call leaves the user banned exactly if the ban was live when it
  read the cooldown, which holds when no other call is between its commands: `ThreeEventsBan`,
  `SuppressedWhileBanPending`, `AbandonedBan`. After a ban appeal was overturned, a live cooldown does not
  imply a live ban either: `CooldownImpliesBan`, `AutomaticOutcome`, `SuppressedAfterOverturn`.
- What the dedupe key keeps apart is one pair of texts, timestamp and signature. Such a pair is processed at
  most once exactly if the expiry covers twice the timestamp window plus the wait between check and
  reservation; the service's limits leave no slack: `SafeIff`, `ServiceLimitsAreTight`. Signed bodies are
  kept apart, whenever and however often their deliveries arrive, exactly if each body comes with one
  spelling of its signature and one timestamp; two deliveries of a body that differ in the case of the
  hexadecimal digits, or in the timestamp, which the signature does not cover, can both be processed:
  `OncePerBodyIff`, `BodyTwiceIff`, `OtherCaseIsProcessedAgain`, `OtherStampIsProcessedAgain`.
- `stableStringify` prints different objects alike when a key contains `":`, and prints an infinity (a
  literal like 1e999) as null. Without such keys two texts are the same exactly for values that are equal up to
  key order and up to that; so without infinities exactly for equal values, and a value has its text for
  itself exactly if it holds neither a null nor an infinity: `SameTextIff`, `OwnTextIff`,
  `QuotedKeyCollides`, `InfinityCollides`.

## Model

| member | source | states |
|---|---|---|
| DecisionProtocol.DecisionAgreement | src/session/session.service.ts:597-739 | in every interleaving, every outcome stored, emitted or answered until the first decision lapses is that decision, and only the call whose SET NX stored it emits it |
| DecisionProtocol.DecisionStable | src/session/session.service.ts:645-659 | a live decision is still there, unchanged, at every later point within its lifetime |
| DecisionProtocol.DecisionValidity | src/session/session.service.ts:509-632 | a mutual outcome rests on MATCH from both participants and an existing row of their canonical pair, any other on a PASS or on a deadline that was reached |
| DecisionProtocol.OneMatchPerPair | src/session/session.service.ts:608-623 | over all sessions there is one match row per unordered pair of users |
| DecisionProtocol.LoserEmitsIffLapsed | src/session/session.service.ts:661-739 | a call that lost the SET NX answers the stored decision if that is live at its second read, and emits its own outcome exactly when it is not |
| DecisionProtocol.LateLoserReachable | src/session/session.service.ts:661-676 | a run in which a loser reads again after the decision has lapsed |
| DecisionProtocol.RunInv | src/session/session.service.ts:509-739 | the invariant of the command-level protocol holds in every reachable state |
| Text.CanonicalPairSymmetric | src/session/session.service.ts:800-802 | the canonical pair does not depend on the order of the two users, and is ordered |
| SessionLifecycle.TtlNesting | src/session/session.service.ts:26-31 | crashes included, the state key lapses no later than the ended marker, that no later than the deadline, that no later than a stored decision; a session is ended and decided at most once |
| SessionLifecycle.RecoveryRepeatsNothing | src/session/session.service.ts:111-280 | recovery neither ends an ended session nor decides a decided one again, however late it comes |
| SessionLifecycle.DecidedAnswersTheSame | src/session/session.service.ts:509-561 | once an outcome was sent, every later submission is refused as not ended or answered with it |
| SessionLifecycle.StaysWatched | src/session/session.service.ts:430-460 | without a crash every started session has its end timer until it ends, then its choice timer until it is decided |
| SessionLifecycle.RecoveryWatches | src/session/session.service.ts:138-172 | handling one live key in either pass re-establishes its timer and undoes no other |
| SessionLifecycle.RecoveryWaits | src/session/session.service.ts:180-280 | through both passes an ended session keeps its keys and choices, and is decided, once and not mutual, only if its deadline is reached |
| SessionLifecycle.RecoveryRestoresTimers | src/session/session.service.ts:95-280 | after both passes, from whatever timers were left, every session with a live state key, or a live deadline and a row, is watched if its live keys were handled |
| SessionService.ScanKeys | src/session/session.service.ts:948-979 | distinct keys, all of those in the replies unless truncated; truncation takes 10000 keys or 5 s |
| SessionService.SessionService.EnsureChoiceDeadline | src/session/session.service.ts:872-888 | returns the live deadline, or stores one 60 s ahead with a two-hour life |
| SessionLifecycle.PersistedIsRecovered | src/session/session.service.ts:474-507 | the stored state makes a started session recoverable for exactly an hour: recovery gives back its timer for the stored end time, or ends it after that time |
| SessionOutcomes.OutcomeJustified | src/session/session.service.ts:509-632 | in every run with crashes and recoveries, a mutual outcome rests on MATCH submitted by both participants, any other on a submitted PASS or on 60 s gone by since the end |
| SessionOutcomes.SubmitAnswers | src/session/session.service.ts:509-561 | from the choices that can be seen after a submission: resolved exactly if one is PASS, both are MATCH or the deadline is reached, mutual exactly if both are MATCH, otherwise pending; a live decision is answered as it is |
| SessionOutcomes.RecordIsFirstChoice | src/session/session.service.ts:536-552 | the first choice of the submitter is the one kept, until the deadline; a later one does not replace it, and the other's stays |
| SessionOutcomes.KeyRecoveryWaits | src/session/session.service.ts:205-264 | recovery of one undecided session changes nothing but its timer before the deadline, and decides it, not mutual, from then on |
| SessionOutcomes.StartOnce | src/session/session.service.ts:282-362 | an unlocked session gets its state for an hour and an end timer after 45 s, or its end where the body throws; a locked one is left alone |
| SessionOutcomes.EndOpensWindow | src/session/session.service.ts:364-437 | the end is marked for an hour and sent once, and opens a window of 60 s kept for two hours |
| SessionOutcomes.FinalizeOnce | src/session/session.service.ts:624-739 | a live decision stands; otherwise the outcome is stored for two hours and sent once |
| SessionService.SessionService.HandleSessionCreated | src/session/session.service.ts:282-362 | starts a session once per lock, with its state and end timer; where the body throws, the session is ended at once, with its choice timer |
| SessionService.SessionService.EndSession | src/session/session.service.ts:364-437 | only the winner of the ended marker opens the choice window, counts the end and swaps the timers |
| SessionService.SessionService.UpsertMatch | src/session/session.service.ts:608-623 | one row for the canonical pair, kept if it is there; no other row changes |
| SessionService.SessionService.FinalizeDecision | src/session/session.service.ts:597-739 | stores and emits an outcome, mutual exactly for two MATCH with the pair's row, unless one is live, which is returned |
| SessionService.SessionService.EvaluateChoices | src/session/session.service.ts:563-595 | a PASS, two MATCH or a reached deadline in the visible choices decide, mutual exactly for two MATCH, anything else is pending |
| SessionService.SessionService.SubmitChoice | src/session/session.service.ts:509-561 | refuses unknown sessions and strangers, otherwise records the first choice and answers as `SubmitAnswers` says, with the match row of a mutual outcome; it touches no other session |
| SessionService.SessionService.RecoverSessionEndTimers | src/session/session.service.ts:111-178 | handles the scanned keys in order up to the first reached after 5 s, and reports truncation exactly then |
| SessionService.SessionService.RecoverChoiceTimeouts | src/session/session.service.ts:180-280 | the same for deadline keys |
| SessionService.SessionService.OnModuleInit | src/session/session.service.ts:95-98 | if neither scan was truncated and SCAN returned every live key, every session that can be found is watched; and none is decided before its deadline |
| Leases.OneLeasePerUser | src/queue/queue.service.ts:496-507 | at every time a user has at most one live lease |
| Leases.OnlyOwnerReleases | src/queue/queue.service.ts:475-513 | no command ends a live lease but its own owner's release, even after other leases expired |
| Leases.AllOrNothing | src/queue/queue.service.ts:379-396 | `lockUsers` leaves none of the leases it took, or returns one of its own per requested user, in order; until it releases them none was released, and each is live and stored under its user's key unless it has lapsed |
| QueueInterleaving.NeverMoreThanPaid | src/queue/queue.service.ts:112-142 | under every interleaving, entries, popped copies, sessions and refunds of a user never exceed the debits, even if every lock has lapsed |
| QueueInterleaving.NoStrandedUser | src/queue/queue.service.ts:275-366 | whenever the stored state names a key, the user is in its sorted set or in the hands of a call for it |
| QueueInterleaving.SafePairing | src/queue/matching.worker.ts:79-111 | every session was created by a call that itself had validated, earlier, that its two different users hold state for its key, and, between the two, found no block either way |
| QueueInterleaving.StepPaid | src/queue/queue.service.ts:196-207 | each single command keeps the inequality |
| SortedSet.AddContents | src/queue/queue.service.ts:128-129 | ZADD keeps the order by score then member, and changes one member's entry |
| SortedSet.RemContents | src/queue/queue.service.ts:196-200 | ZREM removes exactly that member and keeps the order |
| SortedSet.TakeIsMin | src/queue/queue.service.ts:275-303 | what ZPOPMIN takes comes before everything it leaves |
| Text.LessIsLexicographic | src/queue/queue.service.ts:603 | one text is before another exactly if it is a proper prefix or has the smaller character at the first difference |
| QueueContents.SortedIsInOrder | src/queue/queue.service.ts:128-129 | a sorted set is in the order of scores, and of members where these are equal |
| QueueContents.JoinContents | src/queue/queue.service.ts:94-142 | exactly a user without state who has a token is queued: the key's set is its old one and the user, scored with the time of the join, the state names both, the balance is one less, and nothing else changes; any other join changes nothing |
| QueueContents.LeaveContents | src/queue/queue.service.ts:173-237 | a leave takes out exactly the queued user and refunds exactly if the user was in the set and under no live marker; the key is forgotten exactly if its set is empty then |
| QueueContents.RemoveContents | src/moderation/moderation.service.ts:791-807 | the same without refund, and the key stays known |
| QueueContents.PopPairContents | src/queue/queue.service.ts:275-303 | the first two of the set, or nothing and the set as it was |
| QueueContents.ValidateCases | src/queue/queue.service.ts:305-339 | who goes back, and with which score: the partner of one who left with the old one, a blocked pair 5000 and 5001 ms from now, nobody who left |
| QueueContents.AttemptContents | src/queue/matching.worker.ts:86-144 | a valid pair gets its row and markers for an hour and loses its state, or goes back with its scores if a lock is taken |
| Arrivals.ScoreIsTheJoin | src/queue/queue.service.ts:124-128 | in every run, each entry of a queue has the time of the join that queued its user as its score, or a later one if the user was deferred since |
| Arrivals.FirstComeFirstServed | src/queue/queue.service.ts:124-303 | in every run, a user not deferred since joining stands before everybody who joined the queue later |
| Arrivals.QueueIsByArrival | src/queue/queue.service.ts:124-303 | without deferrals a queue is in the order of the joins, by user id within a millisecond |
| Arrivals.NobodyIsPassedOver | src/queue/matching.worker.ts:79-144 | when a session is made, no user who stays behind and was not deferred had joined before either of the two |
| Queue.ProcessKeyIsFifo | src/queue/matching.worker.ts:76-151 | on n matchable users the loop makes exactly min(bound, n/2) sessions of neighbours in the order of (score, id), and leaves the rest as it was, the popped and re-added odd user included |
| Queue.PairingAt | src/queue/matching.worker.ts:79-111 | the i-th session made joins the users at positions 2i and 2i+1 |
| Queue.IterateServes | src/queue/matching.worker.ts:79-144 | one round matches the first two and nobody else |
| MatchingWorker.TickServesEveryQueue | src/queue/matching.worker.ts:52-74 | a tick over several queues serves each of them first come first served, and none disturbs another |
| MatchingWorker.MatchingWorker.Tick | src/queue/matching.worker.ts:52-74 | does nothing while another tick runs; otherwise processes every key in order, up to the one at which it throws, and cleans up after more than ten minutes if it did not; the flag is cleared either way |
| QueueService.QueueService.JoinQueue | src/queue/queue.service.ts:59-171 | a join under the user's lock: refused while banned or locked, otherwise charged once and queued with the time of the join as score, or charged back; locks are as before |
| QueueService.QueueService.LeaveQueue | src/queue/queue.service.ts:173-237 | a leave under the user's lock, with its refund rule; locks are as before |
| QueueService.QueueService.CleanupQueueKey | src/queue/queue.service.ts:372-377 | a key is forgotten exactly when its sorted set is empty |
| QueueService.QueueService.RemoveFromQueueIfPresent | src/moderation/moderation.service.ts:791-807 | takes a user out of the set and the state, without refund |
| QueueService.QueueService.AcquireLock | src/queue/queue.service.ts:496-507 | a new value under a 3 s key, or nothing while another is live |
| QueueService.QueueService.ReleaseLock | src/queue/queue.service.ts:509-513 | deletes the key only while it is live with this value |
| QueueService.QueueService.LockUsers | src/queue/queue.service.ts:379-390 | succeeds exactly for distinct users without a live lock; a refusal leaves every lock as it was |
| QueueService.QueueService.ReleaseUserLocks | src/queue/queue.service.ts:392-396 | removes exactly the leases that are still live under their own value, and no lease that somebody else has taken since |
| QueueService.QueueService.PopPair | src/queue/queue.service.ts:275-303 | takes the two least entries, or puts a single one back |
| QueueService.QueueService.ValidatePair | src/queue/queue.service.ts:305-339 | valid exactly if both are queued here and unblocked; otherwise the right users go back, blocked ones later |
| QueueService.QueueService.RequeuePair | src/queue/queue.service.ts:398-406 | both entries go back with their own scores |
| QueueService.QueueService.DeferBlockedPair | src/queue/queue.service.ts:529-539 | both go back with later scores, one millisecond apart |
| Ledger.CommitSeatsPair | src/queue/queue.service.ts:341-366 | a match adds one row that takes the place of one queued token of each of the two, whose markers name it for an hour; nobody else's books change |
| Ledger.RejoinAfterMatch | src/queue/queue.service.ts:359-366 | a matched user cannot leave; one who joins again and leaves loses the token exactly within the hour after the match |
| QueueService.QueueService.AttemptPair | src/queue/matching.worker.ts:86-144 | validate, lock, commit or requeue, and release: the queue afterwards, and every lock as before |
| QueueService.QueueService.ProcessQueueKey | src/queue/matching.worker.ts:76-151 | the bounded loop is the specification that `ProcessKeyIsFifo` is about; a queue of matchable users is served first come first served, ten pairs at most |
| Ledger.ExactLedger | src/queue/queue.service.ts:112-142 | at every point, balance, queued entry, sessions and forfeits add up to the first balance and the tokens of the credit rows; these are rows of creditable events that were delivered, no two of one event, and, if ids stand for one event each, of all of them |
| Ledger.DeliveredHasRow | src/payments/payments.service.ts:126-162 | a delivered creditable event of a user who is there, with an uncredited checkout, has a row with its id from then on |
| Ledger.EveryRowIsPaid | src/payments/payments.service.ts:106-162 | in every run, each credit row is that of a delivered event of a completed and paid checkout with user, pack and a positive number of tokens, for that user and number; none comes from any other event |
| Ledger.EveryPaidCheckoutHasRow | src/payments/payments.service.ts:106-162 | a delivered paid checkout of a user who is there, with new id and checkout, is credited with its number of tokens and keeps its row |
| Ledger.ForfeitsExplained | src/queue/queue.service.ts:196-235 | a token is forfeited only by leaving under a live matched marker or by removal |
| Ledger.LeaveRefundsIff | src/queue/queue.service.ts:196-235 | leaving refunds one token exactly to a queued user without a live matched marker |
| Ledger.RejoinForfeits | src/queue/queue.service.ts:359-366 | a run in which a matched user joins again, leaves unmatched and loses the token |
| Ledger.DeliveryOrderIrrelevant | src/payments/payments.service.ts:126-162 | duplicated and reordered deliveries of the same events leave the same balances |
| Ledger.DeliverAllAdds | src/payments/payments.service.ts:126-162 | deliveries add each new creditable event's tokens once |
| PaymentsService.PaymentsService.HandleStripeWebhookEvent | src/payments/payments.service.ts:106-184 | balances and rows change exactly for a completed and paid checkout with user, pack and a positive number of tokens whose id and checkout are new and whose user is there, and then by that number; for an unknown user or a credited checkout the transaction fails |
| RefreshFamilies.OneChainPerFamily | src/auth/auth.service.ts:367-406 | in every reachable state the rows of a family are one user's single chain of replacements, and only its tail may be unrevoked |
| RefreshFamilies.RefreshIsEarned | src/auth/auth.service.ts:312-406 | a refresh succeeds only on the row that fits the token, unexpired when it began, and leaves the new row the only usable one |
| RefreshFamilies.DeadForever | src/auth/auth.service.ts:367-416 | a family without an unrevoked row never regains one |
| RefreshFamilies.NoRefreshOfDead | src/auth/auth.service.ts:367-416 | no refresh in such a family succeeds any more |
| RefreshFamilies.RevocationEndsFamilyIff | src/auth/auth.service.ts:410-413 | an `updateMany` ends a family exactly if no rotation in it was committed between its start and its end, or nothing in it was usable anyway |
| RefreshFamilies.ReuseEndsFamily | src/auth/auth.service.ts:327-355 | after a reused or unfitting token was shown and its family revoked with no rotation committed meanwhile, every later refresh in it fails |
| RefreshFamilies.ReuseMissesRotation | src/auth/auth.service.ts:349-355 | a run in which a family goes on after a reuse, through a rotation that was committed while it was revoked |
| RefreshFamilies.RefreshedAtMostOnce | src/auth/auth.service.ts:376-387 | of any number of interleaved requests with one token at most one gets a new token |
| RefreshFamilies.RaceLoserEndsFamily | src/auth/auth.service.ts:385-416 | a request that loses the compare-and-set fails, and its revocation ends the family unless a rotation is committed meanwhile |
| RefreshFamilies.LogoutEndsFamilies | src/auth/auth.service.ts:419-425 | after a logout the user's refreshes succeed only in families begun after its start, or with a rotation committed while it ran |
| RefreshFamilies.LogoutMissesRotation | src/auth/auth.service.ts:419-425 | a run in which a token made during a logout still refreshes |
| RefreshFamilies.DeletionEndsFamilies | src/auth/auth.service.ts:427-446 | after a deletion only in families begun later, whatever requests were under way |
| RefreshFamilies.UninterruptedUpdate | src/auth/auth.service.ts:419-425 | an `updateMany` that nothing interrupts revokes the whole family, or all tokens of the user |
| RefreshFamilies.RunInv | src/auth/auth.service.ts:312-492 | the invariant behind the chain results holds in every reachable state |
| RefreshService.RefreshService.RefreshSession | src/auth/auth.service.ts:312-417 | which tokens are refreshed, which cost their family, which one row, and what else stays |
| RefreshService.RefreshService.BeginRefresh | src/auth/auth.service.ts:317-363 | the guards, in their order |
| RefreshService.RefreshService.FinishRefresh | src/auth/auth.service.ts:357-417 | the command that follows, on whatever rows are then there |
| RefreshFamilies.IssuedIsUsable | src/auth/auth.service.ts:457-492 | a new family is a chain of one, and for thirty days exactly its token refreshes in it; no other family changes |
| RefreshService.RefreshService.LogoutAll | src/auth/auth.service.ts:419-425 | every unrevoked row of the user gets the time of the logout as its revocation, row by row, and no other changes |
| RefreshService.RefreshService.DeleteAccount | src/auth/auth.service.ts:427-429 | exactly the user's rows are gone, and the others are as they were |
| WebhookDedupe.TwiceOnlyAfterWaiting | src/moderation/moderation.service.ts:353-366 | one pair of texts is processed twice only if the later request waited longer than the expiry exceeds twice the window |
| WebhookDedupe.FreshIff | src/moderation/moderation.service.ts:353-366 | a number of 10 to 16 digits is an instant, in seconds below 10^12, and fresh exactly within five minutes |
| WebhookDedupe.KeyIgnoresPrefix | src/moderation/moderation.service.ts:550-560 | a signature has one key with its prefix and without, and different timestamps or signatures have different ones |
| WebhookDedupe.SafeIff | src/moderation/moderation.service.ts:550-569 | a pair of texts is processed at most once in every run exactly if the expiry covers twice the window and the wait |
| WebhookDedupe.ServiceLimitsAreTight | src/moderation/moderation.service.ts:26 | ten minutes are just enough for five, and one millisecond less or more fails |
| WebhookDedupe.BodyTwiceIff | src/moderation/moderation.service.ts:368-380 | of two deliveries of one signed body both are processed, in some run without waits, exactly if the text of timestamp or signature differs |
| WebhookDedupe.OncePerBodyIff | src/moderation/moderation.service.ts:550-569 | for any set of deliveries, every run within the limits that receives only these processes each body at most once exactly if those of one body that can pass the check have one spelling and one timestamp |
| WebhookDedupe.OncePerBody | src/moderation/moderation.service.ts:550-569 | so in a run whose checks so far met this, no body was processed twice |
| WebhookDedupe.OtherCaseIsProcessedAgain | src/moderation/moderation.service.ts:371-373 | the same signature in the other case of letters is processed again |
| WebhookDedupe.OtherStampIsProcessedAgain | src/moderation/moderation.service.ts:374-380 | so is the same signed body under another timestamp |
| AutomaticBans.CooldownImpliesBan | src/moderation/moderation.service.ts:466-500 | a live cooldown means a live ban, a ban about to be written, or an appeal overturned since |
| AutomaticBans.ThreeEventsBan | src/moderation/moderation.service.ts:466-500 | without overturned ban appeals, an automatic action that saw three events returns with the user banned, exactly unless it was suppressed while the ban was not live; that takes another call between its two commands, in the last minute |
| AutomaticBans.SuppressedWhileBanPending | src/moderation/moderation.service.ts:482-492 | a run in which the second of two calls returns with the user not banned |
| AutomaticBans.AbandonedBan | src/moderation/moderation.service.ts:482-492 | a run in which the call that got the cooldown never continues, and it lapses without a ban |
| AutomaticBans.SuppressedAfterOverturn | src/moderation/moderation.service.ts:770-772 | a run in which the cooldown suppresses the ban of a user with three events |
| ModerationService.AutomaticOutcome | src/moderation/moderation.service.ts:480-500 | after three events the user is banned exactly if banned before or not cooling down |
| ModerationService.AutomaticWrites | src/moderation/moderation.service.ts:480-500 | three or more events of the last 24 hours and no live cooldown write a cooldown of a minute and a ban of a day; anything less writes nothing |
| AutomaticBans.CountIsCardinality | src/moderation/moderation.service.ts:466-480 | each event of the user in the last 24 hours counts once |
| ModerationService.AutomaticIsItsCommands | src/moderation/moderation.service.ts:466-500 | the operation is its commands in a row |
| ModerationService.ModerationService.ReserveWebhookDelivery | src/moderation/moderation.service.ts:550-569 | accepts a pair exactly if its key is not live, and then keeps it for ten minutes |
| ModerationService.ModerationService.ApplyModerationAction | src/moderation/moderation.service.ts:466-520 | counts the events of the last day in a loop and does the automatic action |
| ModerationService.ModerationService.PunishAll | src/moderation/moderation.service.ts:417-440 | all events are written first, and one that fails stops it; otherwise every offender with three is banned exactly if banned before or not cooling down, and nobody else is touched |
| ModerationService.EventsOfHas | src/moderation/moderation.service.ts:417 | the event rows written are those of the blamed users |
| ModerationService.ModerationService.HandleWebhook | src/moderation/moderation.service.ts:383-444 | acts exactly on a violation in a known session, by users, whose delivery was not reserved before; a named user alone gets an event, and without one the two participants get one each; nobody else's ban or cooldown changes, and the session is ended; one that blames somebody who is not a user fails with the delivery reserved, and no other does anything |
| ModerationService.ModerationService.ResolveReport | src/moderation/moderation.service.ts:590-629 | a moderator's ban holds for a day whatever the cooldown says; the pair is blocked, and the reported user leaves the queue unless it was already |
| ModerationService.ModerationService.CreateBlock | src/moderation/moderation.service.ts:143-194 | a block that was not active takes the blocked user out of the queue; nobody can block themselves |
| ModerationService.ModerationService.ResolveAppeal | src/moderation/moderation.service.ts:724-772 | resolves an open appeal once; only an overturned ban appeal lifts the ban, and the cooldown stays |
| StableStringify.SameTextIff | src/queue/queue.service.ts:595-606 | values equal up to key order have one text; when no key contains `":`, one text means equal up to key order and up to infinities printed as null, and without infinities exactly equal up to key order |
| StableStringify.OwnTextIff | src/queue/queue.service.ts:596-598 | a value has its text for itself exactly if it holds neither a null nor an infinity |
| StableStringify.InfinityCollides | src/queue/queue.service.ts:596-598 | an infinity and a null have one text |
| StableStringify.QuotedKeyCollides | src/queue/queue.service.ts:604 | two different objects with one text |
| StableStringify.UnquotedKeyOk | src/queue/queue.service.ts:604 | a key without a quote meets the condition |
| StableStringify.PrintCode | src/queue/queue.service.ts:595-606 | a printed value ends where it seems to, at every depth |
| StableStringify.AlikePrintsSame | src/queue/queue.service.ts:602-605 | the text does not depend on key order |
| StableStringify.ObjectText | src/queue/queue.service.ts:602-605 | the text of an object is its fields in the lexicographic order of keys, each a quoted key, a colon and the value's text, with commas between them |
| StableStringify.ArrayText | src/queue/queue.service.ts:599-601 | the text of an array is the texts of its items in order |
| StableStringify.PlainText | src/queue/queue.service.ts:596-598 | a text without quotes, backslashes and control characters stands between quotes as it is |
| QueueKeys.SlugIsWords | src/queue/queue.service.ts:447-457 | the replacements leave exactly the maximal runs of [a-z0-9], joined by single dashes |
| QueueKeys.NormalizedIsSlug | src/queue/queue.service.ts:447-457 | a normalized city has no colon, is unchanged when normalized again, and its words can be read back |
| QueueKeys.NoWords | src/queue/queue.service.ts:456 | null exactly when no letter or digit is left |
| QueueKeys.RegionIsTheCity | src/queue/queue.service.ts:341-353 | a join is refused exactly for a given city without letter or digit; otherwise the session's region is the city that went into the key |
| QueueKeys.ResolvedIsSlug | src/queue/queue.service.ts:421-445 | a resolved city is already normal |
| QueueKeys.CityCases | src/queue/queue.service.ts:421-445 | a given city counts or is refused; without one the region counts, and "au" or none stand for Canberra |
| QueueKeys.SameQueueIff | src/queue/queue.service.ts:408-419 | two joins get one key exactly for equal cities and preferences (up to infinities printed as null), as far as the hash tells texts apart |
| TokenBytes.DecodeBack | src/video/video.service.ts:183-210 | the content is read back as app id, times, salt, signature and the ordered services with their privileges |
| TokenBytes.SignedIsContentWithoutSignature | src/video/video.service.ts:183-210 | deleting the 32 bytes after the header leaves exactly the signed bytes |
| TokenBytes.SignedIsUnambiguous | src/video/video.service.ts:183-196 | different tokens are signed over different bytes |
| TokenBytes.ReadServiceBack | src/video/video.service.ts:222-258 | a packed service is read back, whatever follows it |
| TokenBytes.HeaderBytes | src/video/video.service.ts:183-196 | app id with its length, issue time, expiry and salt as little-endian bytes, in this order |
| TokenBytes.ServiceBytes | src/video/video.service.ts:222-258 | type 1 with channel and user or type 2 with the user, lengths before texts, then the number of privileges and six bytes for each |
| TokenBytes.PrivilegeBytes | src/video/video.service.ts:222-230 | the i-th privilege is the six bytes of its key and expiry at 6i |
| AccessToken.ByteBuf.PutUint16 | src/video/video.service.ts:134-138 | appends two bytes, or throws exactly outside 16 bits |
| AccessToken.ByteBuf.PutUint32 | src/video/video.service.ts:140-144 | appends four bytes, or throws exactly outside 32 bits |
| AccessToken.ByteBuf.PutString | src/video/video.service.ts:146-150 | appends a length and the bytes, or throws exactly from 65536 bytes on |
| AccessToken.MapSetKeepsOrder | src/video/video.service.ts:218-220 | setting a key keeps the place of every key that was there |
| AccessToken.ServiceObject.AddPrivilege | src/video/video.service.ts:218-220 | the privilege gets the expiry, as `Map.set` does |
| AccessToken.ServiceObject.Pack | src/video/video.service.ts:222-230 | appends exactly the service's bytes, or throws exactly if something does not fit |
| AccessToken.AccessToken2.AddService | src/video/video.service.ts:179-181 | one service per type, a new one in the place of the old |
| AccessToken.AccessToken2.Build | src/video/video.service.ts:183-210 | built exactly if everything fits; the content reads back as the token, with the signature of the content without it |

## Left out

Assumed of callers and of the environment:

- `ensureChoiceDeadline`, `endSession` and `cleanupQueueKey` are single steps. Split at 874-886 of the session service, the loser could be handed a deadline that was never stored; a crash inside `endSession` leaves no deadline key.
- A session starts before it is ended, no `endSession` arrives after the first ended marker has lapsed, and one process owns the timers.
- Decisions are empty or resolved when a run starts; legacy `pending` decisions and corrupted Redis payloads are not modelled.
- The session row insert of a match succeeds in `Queue`; in `QueueInterleaving` it may fail, and the popped pair is then held by the lost call for ever.
- The Redis MULTI of a join either happens or does not; its error is not reported after it happened.
- A rotation becomes visible when it commits, and deleting an account when the user's row goes; an `updateMany` on refresh tokens picks its rows when it starts and changes those still unrevoked when it ends. The order in which it takes its row locks in between is not modelled.
- `issueTokens` is called without a family, as every caller does; UUIDs, lock values and row ids are new.
- Stripe gives one id to one event and one checkout session; parseInt of the metadata is a parameter.
- `lockUsers` is called with distinct users; for a user named twice the source's map would keep only the later of two leases.
- Clocks are one clock, also those of the services in one run. The timestamp arithmetic is exact, also beyond 2^53.

Not modelled:

- SHA-256, HMAC, JWT, Base64, UTF-8: parameters, or bytes and texts that are taken as given; a webhook key is the pair that is hashed.
- Strings are sequences of characters by code point, where JavaScript sorts and cuts by UTF-16 unit; lone surrogates do not occur.
- Finite numbers in preferences are their printed texts; JSON cannot hold NaN.
- `trim` and `toLowerCase` are any functions that leave slugs as they are.
- Socket events other than outcome and end, analytics, notifications, queue positions and sizes, `session:active` keys.
- Partner profiles added to replies, match listing, chat, the lifting of blocks, the creation of reports with its escalation, the creation of appeals, listings.
- `isViolation` is a parameter of the webhook. A block row that is lifted and one that was never made are the same here.
- A tick that throws in the middle of a key; the model lets it throw before a key.
- A call that crashes between its commands simply takes no further one (`Abort`, where a call would otherwise be waited for).
- Token lifetimes, channel names and the hashing of user ids to numbers in the video service.
- Time limits of `deleteAccount` and everything in it but the refresh tokens.
- StableStringify.SameTextIff: the second direction asks for keys without `":`, which is sufficient and can be checked on the input; that every single such key leads to a collision is not claimed, because for most of them there is none.
- RefreshService.RefreshService.RefreshSession: a refresh that nothing interrupts; interleavings are in `RefreshFamilies`.
- QueueService.QueueService.ProcessQueueKey: one worker between whose commands nobody else acts; interleavings are in `QueueInterleaving`.
