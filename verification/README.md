# Verification of the park platform's state machines and arithmetic

This project models the parts of the platform where failures, concurrency or arithmetic make the
behaviour hard to see, and proves what they guarantee over all inputs and all runs. Where a
promise in the repository's comments does not hold of the code, the model follows the code: a
lemma gives a run or an input on which the promise fails, and another says exactly when it holds.

Run `dafny verify dfyconfig.toml` to check everything.

## What is modelled

- **Alarm ingestion** (`KeyStore`, `AlarmProtocol`, `AlarmTheorems`, `AlarmScene`, `AlarmRetry`,
  `AlarmConsumer`): any number of consumers and replays share four stores: L1 idempotency keys, L2
  cooldown keys, alarm rows with a unique index, and dead letters. Each store call is an atomic step
  that may be lost or may take effect without a reply, and keys may expire at any moment.
  `AlarmConsumer.AlarmService` is the handler itself; its ghost field `run` is a run of the
  transition system that ends in its state, so the theorems apply to the object. `AlarmScene` plays
  one message of which one call is lost, and `AlarmRetry` does so on the evaluations of `RuleEngine`.
- **Alarm rows and rules** (`AlarmLifecycle`, `RuleEngine`, `RuleFallback`, `SlidingWindow`): creation,
  acknowledgement and resolution with their audit trail; the evaluation of rules over a cached list; the
  sliding-window script against the plain history of events.
- **Gateway** (`TokenBucket`, `Breaker`, `BreakerRaces`, `Routes`): the token-bucket script against an
  eager bucket and against the arrival bound; the circuit breaker with atomic calls and at the grain
  of its atomic operations; longest-prefix routing.
- **Devices and access** (`ShadowMerge`, `RemoteOpenProtocol`, `RemoteOpen`, `LockProtocol`, `Lock`): the
  optimistic merge of telemetry, remote door opening with its idempotency key, the token lock with
  its watchdog.
- **Billing** (`Money`, `Tiered`, `Tou`, `HourlyUsage`): tiered and time-of-use prices and the hourly
  differences that feed them. `HourlyUsage.ListHourlyUsage` yields the input of `Tou.CalcTou`; by
  `Tou.NamesPartitionHours` the usage billed before rounding is then the total usage.
- **Identifiers, dispatch, search** (`Snowflake`, `Dispatch`, `LikeEscape`): bit packing and clock,
  the score as a lexicographic order, the escape of LIKE patterns (section 8.5 of SQL-92).

## Where the code and its comments disagree

| promise | what the code does | lemma |
|---|---|---|
| an idempotency key present means that the alarm was stored (consumer.go:263-267) | a failed insert leaves the cooldown key, and the retry suppresses its own alarm | `AlarmTheorems.LeakedCooldownLosesAlarm`; exact accounting in `CommitAccounting`, `CooldownKeyMeansStoredOrLeaked` |
| | a claim or release that is lost leaves an orphaned key, and the retry takes it for a duplicate | `AlarmTheorems.LateClaimLosesAlarm`, `OrphanedKeyHidesEvent`; exact accounting in `LiveKeyMeansHandled`, `SeenMeansClaimed` |
| a retry after the key is released is safe (consumer.go:308-315) | a triggered window is deleted before L1 is asked, so the retry does not have its draft; and the cooldown key that is kept suppresses the draft whose insert was lost | exact conditions in `AlarmRetry.RetryAfterReleaseIsSafeIff`, `OneLostCall`, `SlidingWindow.RetryAfterTriggerFiresIff` |
| a failed evaluation keeps the offset uncommitted (consumer.go:205) | a rule table that cannot be read counts as empty, and the event is answered by the built-in rule or dropped | `RuleFallback.EvaluateRules`; exact condition in `AlarmRetry.UnreadableTableLosesEventIff` |
| one bad rule does not affect the others (engine.go:96) | an evaluation error of one rule drops the drafts of all, and spent windows stay spent | `RuleEngine.RulesAreIndependent`; exact condition in `FailureSpendsWindow`, `RetryYieldsDraftIff` |
| a missing shadow is created so that no report is lost (telemetry.go:202) | of two merges that create it the slower one fails without a retry | `ShadowMerge.InsertRaceLosesReport`; exact conditions in `ErrorIffRaceLost`, `ErrorPossibleIffNoRow` |
| a repeated request is answered "accepted" because it was (remoteopenlogic.go:76-84) | the first request may still be refused, or its key is left over by a lost claim reply or release | `RemoteOpenProtocol.DuplicateToldSuccessForNothing`, `LateClaimToldSuccess`, `LostReleaseToldSuccess`; exact condition in `DuplicateAnswerTruthful` |
| a request opens the door once (remoteopenlogic.go:69-70) | a timeout gives the key back though the door may be open | `RemoteOpenProtocol.TimeoutOpensDoorTwice`; exact condition in `DoorOpensAtMostOnce` |
| an open breaker rejects for its cooldown (proxy.go:34-41) | the cooldown runs from the start of the failing request, and interleaved calls can let a request through or close the breaker | `BreakerRaces.StaleCheckAdmitsDuringCooldown`, `OverlapClosesWithFiveFailures`, `OverlapOpensWithoutFailures`; exact conditions in `Breaker.TripRejectsIffRequestWasShort`, `BreakerRaces.ProbeBreaksCooldownIffStamped`, `AgreeIffLatestStoreFits` |
| the watchdog keeps a lock (lock.go:101-124) | a lease below a millisecond is renewed to nothing | `LockProtocol.RenewalKeepsLockIffWholeMillisecond` |
| all usage is billed | usage above the last cap of a validated list is free | exact condition in `Tiered.FullyBilledIff` |
| a validated period is applied (rulecreatelogic.go:107-121) | validation accepts a one-digit hour, which billing cannot read; minutes are not looked at | exact condition in `Tou.AcceptedPeriodAppliesIff` |
| identifiers count from midnight of 2023-11-14 (idgen.go:12) | the constant is 22:13:20 UTC of that day | `Snowflake.PackInNumbers` |
| the hourly usage adds up to the total (energy_reading.go:60-61) | after a meter reset it does not | `HourlyUsage.ResetSplitsTotals`; exact condition in `TotalsAgreeIff` |

## How to read the classes

Methods of classes take the faults of their store calls as arguments (`Fault`, or an `Env` that
bundles them), so their contracts say what happens for every one. `ShadowMerge.ShadowHandler.Interfere`
stands for whatever other mergers and writers do between two calls: callers know nothing of it but
its contract, which every behaviour of others meets by the lemmas on steps.

## Model

| member | source | states |
|---|---|---|
| KeyStore.SetIfAbsent | common/dedup/dedup.go:48-55 | a claimed key never changes holder; a lost call changes nothing, a late one takes effect unheard; "seen" is answered exactly if the key was there |
| KeyStore.Delete | common/dedup/dedup.go:57-60 | after an effective release the key is absent and every other key is as it was |
| AlarmProtocol.InsertKeepsUnique | deploy/sql/m3_mysql_tables.sql:35-38 | the insert keeps (rule, request) unique over all rows, under every fault |
| AlarmProtocol.StepKeepsInv | app/alarm-service/internal/svc/consumer.go:190-306 | every step of any handler keeps: unique rows, each dealt-with draft stored or suppressed, attempts bounded, each cooldown key stored for, about to be stored for, or leaked |
| AlarmProtocol.StepKeepsClaims | app/alarm-service/internal/svc/consumer.go:254-297 | under all faults every step keeps: the attempt that set a live L1 key is at work, has dealt with all its drafts, or is orphaned; and an orphaned attempt deals with none |
| AlarmTheorems.RowsStayUnique | app/alarm-service/internal/model/alarm_model.go:87-106 | in every run no two rows share rule and request, whatever is retried, redelivered or replayed |
| AlarmTheorems.RowsAreOwned | app/alarm-service/internal/model/alarm_model.go:87-106 | in every run each row carries the id, the tenant and the device of the event of some message handled |
| AlarmTheorems.CommitAccounting | app/alarm-service/internal/svc/consumer.go:411-479 | whenever the wrapper returns nil: no drafts, already seen, every draft stored or suppressed by a held cooldown key, or a dead letter with the same message; at most four attempts, exactly one for a malformed payload, and exactly four before a message that is not malformed is given up |
| AlarmTheorems.WithoutCooldownAllStored | app/alarm-service/internal/svc/consumer.go:254-305 | without a cooldown component an offset committed after handling means that every draft has its row |
| AlarmTheorems.LiveKeyMeansHandled | app/alarm-service/internal/svc/consumer.go:254-305 | in every run, under all faults: the attempt that set a live L1 key is at work or has settled every one of its drafts if and only if it heard of its claim and lost no release of its own |
| AlarmTheorems.SeenMeansClaimed | app/alarm-service/internal/svc/consumer.go:254-262 | whoever is told "already seen" meets a live key, and another attempt is at work on it or has settled the event with it if and only if the key is not orphaned |
| AlarmTheorems.OrphanedKeyHidesEvent | app/alarm-service/internal/svc/consumer.go:254-271 | while an orphaned key lives, whoever handles the event is told "already seen", and the attempt that set it deals with no draft in any continuation |
| AlarmTheorems.CooldownKeyMeansStoredOrLeaked | app/alarm-service/internal/svc/consumer.go:276-297 | a cooldown key without a row was taken by an attempt that then failed; there is no other way |
| AlarmTheorems.SuppressedHasCounterpart | app/alarm-service/internal/svc/consumer.go:276-289 | a suppressed draft has a counterpart of the same rule, device and kind, stored or about to be, unless the very key that suppresses it was leaked |
| AlarmTheorems.LeakedCooldownLosesAlarm | app/alarm-service/internal/svc/consumer.go:277-297 | a run: one failed insert and a healthy retry commit the offset with nothing stored and no dead letter, because the cooldown key is not given back |
| AlarmTheorems.LateClaimLosesAlarm | app/alarm-service/internal/svc/consumer.go:254-262 | a run: the claim takes effect but its reply is lost, and the retry commits as a duplicate of itself |
| AlarmRetry.SecondYieldsUnspent | app/alarm-service/internal/rule/engine.go:97-163 | evaluated a second time, however late and without faults, an event yields the drafts of the first time but for those of the window rules that have spent their windows |
| AlarmRetry.OneLostCall | app/alarm-service/internal/svc/consumer.go:202-305 | the L1 claim, a cooldown or an insert of the first attempt is lost, before or after it takes effect, and all else goes well: the L1 key is given back, the retry commits, and a draft has its row if and only if the first attempt stored it, or its rule spends no window and no cooldown key taken for it is in the way; exactly when all alarms are lost |
| AlarmRetry.RetryAfterReleaseIsSafeIff | app/alarm-service/internal/svc/consumer.go:273-305 | after a lost insert every draft has its row in the end if and only if there is no cooldown component and no rule from that draft on has spent its window |
| AlarmRetry.UnreadableTableLosesEventIff | app/alarm-service/internal/svc/consumer.go:515-549 | an event answered without the rules is committed at once with nothing stored if and only if the built-in rule is disabled or does not match |
| AlarmScene.Ends | app/alarm-service/internal/svc/consumer.go:190-306 | how a message ends of which one call is lost in the first attempt: the rules with a row are those stored at first and those of the second evaluation whose cooldown keys were free |
| RuleFallback.EvaluateRules | app/alarm-service/internal/svc/consumer.go:515-549 | the rules are evaluated if the engine can tell some; else, also if the table cannot be read, the built-in rule or nothing answers, and that is no error |
| AlarmConsumer.AlarmService.Seen | common/dedup/dedup.go:48-55 | claims the L1 key for this attempt; present, absent and unavailable lead where the handler goes |
| AlarmConsumer.AlarmService.ReleaseDedupKey | app/alarm-service/internal/svc/consumer.go:316-323 | deletes the key of the event only, and goes on whether or not that worked |
| AlarmConsumer.AlarmService.TryAcquire | common/dedup/cooldown.go:29-36 | takes the cooldown key of one draft, that of its device, kind and rule; held means suppressed |
| AlarmConsumer.AlarmService.Create | app/alarm-service/internal/model/alarm_model.go:87-106 | adds the row, with the tenant and device of the event, unless rule and request have one; both nil and the duplicate error mean that there is one now |
| AlarmConsumer.AlarmService.HandleDraft | app/alarm-service/internal/svc/consumer.go:275-304 | exactly which faults make one draft fail; afterwards it is stored if and only if it was before or its cooldown key was free |
| AlarmConsumer.AlarmService.HandleDrafts | app/alarm-service/internal/svc/consumer.go:273-305 | the same for all drafts of an event against the state before the call; without faults it succeeds |
| AlarmConsumer.AlarmService.HandleDeviceEvent | app/alarm-service/internal/svc/consumer.go:190-305 | malformed exactly for a bad payload or an event of nobody; retryable for a failed evaluation, a missing store or an unheard claim; seen exactly if the key was there; a call that went through its drafts stored exactly those stored before or with a free cooldown key |
| AlarmConsumer.AlarmService.RecordDeadLetter | app/alarm-service/internal/svc/consumer.go:449-479 | the row is there exactly if the write took effect; nil exactly if it is known |
| AlarmConsumer.AlarmService.Accounting | app/alarm-service/internal/svc/consumer.go:411-479 | the commit accounting of all runs, for the state of the object |
| AlarmConsumer.AlarmService.TryOnce | app/alarm-service/internal/svc/consumer.go:411-440 | one attempt and its wait: a retry only after the first three, without malformed event or cancelled wait; given up at the fourth or if malformed; a smooth one ends with nil |
| AlarmConsumer.AlarmService.Attempts | app/alarm-service/internal/svc/consumer.go:411-444 | gives up only after exactly four attempts or on a malformed event, which is not retried; ends with nil if any of the four would be smooth and nothing before it ends the retries |
| AlarmConsumer.AlarmService.HandleWithDeadLetter | app/alarm-service/internal/svc/consumer.go:411-444 | nil means settled; not nil only if a wait was cancelled or the dead letter could not be written; if any of the four attempts is smooth, none before it malformed or followed by a cancelled wait, it commits and writes no dead letter |
| AlarmConsumer.AlarmService.ReplayDeadLetter | app/alarm-service/internal/svc/consumer.go:487-502 | clears the key and makes one attempt; nil means settled, an error leaves the dead letters alone |
| AlarmLifecycle.AuditTellsState | app/alarm-service/internal/model/alarm_model.go:169-195 | in every run the audit rows of an alarm are one per state it has been in, in order, with the operators on the row; one alarm per rule and request |
| AlarmLifecycle.SuccessIsAudited | app/alarm-service/internal/model/alarm_model.go:187-193 | never more calls are told they succeeded than audit rows of that change exist |
| AlarmLifecycle.OneWinner | app/alarm-service/internal/model/alarm_model.go:153-195 | of all concurrent callers at most one is told it acknowledged an alarm, at most one that it resolved it, and none resolves what was not acknowledged |
| AlarmLifecycle.AlarmTable.Create | app/alarm-service/internal/model/alarm_model.go:87-106 | the row and its audit entry appear together or not at all, and exactly if no row has the rule and the request; the reply is the one of the run |
| AlarmLifecycle.AlarmTable.Transition | app/alarm-service/internal/model/alarm_model.go:169-195 | the conditional update and its audit entry happen together or not at all, and exactly if the row is of the tenant and in the state before; the reply is the one of the run |
| RuleEngine.VerdictMeans | app/alarm-service/internal/rule/engine.go:225-243 | without errors: all, any, or never for another logic; an error shows if and only if no earlier condition decides |
| RuleEngine.RulesAreIndependent | app/alarm-service/internal/rule/engine.go:97-163 | the evaluation fails if and only if some rule fails by itself, and else yields what every rule yields by itself on the windows as they were |
| RuleEngine.DraftsAreDistinct | app/alarm-service/internal/rule/engine.go:101-163 | drafts have distinct rules, each of which applies to the event |
| RuleEngine.OutOfScopeYieldsNothing | app/alarm-service/internal/rule/engine.go:202-222 | for any list of rules: a rule limited to another tenant, kind, device type (where the event tells one), device or area yields no draft, and its window is left as it was |
| RuleEngine.RaisesIff | app/alarm-service/internal/rule/engine.go:104-161 | by itself a rule in scope yields a draft if and only if it has conditions that hold, all or one before any error as its logic says, or a window that is full with this event; and the count is the reply of the script |
| RuleEngine.LiftingKeepsDraft | app/alarm-service/internal/rule/engine.go:202-222 | lifting a limit of a rule, or replacing it by one that the event meets, never removes a draft; a rule without limits and conditions always yields one |
| RuleEngine.RetryYieldsDraftIff | app/alarm-service/internal/rule/engine.go:97-163 | any rule of any list, evaluated again after any faults: if its turn came and its store call took effect, its draft is there again if and only if it was due and spends no window; otherwise the first evaluation makes no difference |
| RuleEngine.FailureSpendsWindow | app/alarm-service/internal/rule/engine.go:97-163 | for any list of rules with a failing one nothing is yielded, and the draft of a rule that was due comes with the next evaluation if and only if the rule comes after the first failing one or does not spend its window |
| RuleEngine.ScriptAgain | app/alarm-service/internal/rule/window.go:16-26 | the script run again for one event on what it has left triggers if and only if it triggered at first and one event is enough |
| RuleEngine.Engine.Invalidate | app/alarm-service/internal/rule/engine.go:87-93 | after it, no list loaded earlier is used |
| RuleEngine.Engine.HasRules | app/alarm-service/internal/rule/engine.go:70-73 | true exactly if a list can be had and is not empty: a table that cannot be read counts as empty |
| RuleEngine.Engine.Snapshot | app/alarm-service/internal/rule/engine.go:246-275 | the rules are those of the table at most a time to live ago and not before the last invalidation, and the list kept is used exactly as long; it fails exactly if the table must be read and cannot |
| RuleEngine.Engine.Evaluate | app/alarm-service/internal/rule/engine.go:97-163 | all or nothing: drafts of each rule by itself over recent rules, or no drafts if any rule fails, with what happens to the windows either way |
| RuleEngine.WindowStore.RunRules | app/alarm-service/internal/rule/engine.go:103-163 | for any list of rules all drafts or none, with the windows as far as the first failing rule |
| RuleEngine.WindowStore.JudgeRule | app/alarm-service/internal/rule/engine.go:104-161 | one rule touches its own window key only |
| SlidingWindow.RuleConfig | app/alarm-service/internal/rule/engine.go:139-155 | the window is that of the condition, else of the column, else a minute; never empty, and outlived by the key; a threshold below one is one |
| SlidingWindow.CountIsMembers | app/alarm-service/internal/rule/window.go:16-20 | the script counts exactly the distinct members of the history that are recent, though it has forgotten the old ones |
| SlidingWindow.KeyTracks | app/alarm-service/internal/rule/window.go:16-26 | in every run the stored set holds the latest time of each member since the last trigger that still counts |
| SlidingWindow.ReplyIsDistinctRecent | app/alarm-service/internal/rule/window.go:16-26 | the reply is the number of distinct members newer than the window since the last trigger, or zero below the threshold; the expiry never shows |
| SlidingWindow.TriggerBudget | app/alarm-service/internal/rule/window.go:21-24 | the number of triggers times the threshold is at most the number of events |
| SlidingWindow.RetryAfterTriggerFiresIff | app/alarm-service/internal/rule/window.go:21-24 | the event after a trigger triggers again if and only if the threshold is one |
| SlidingWindow.RedeliveryCountsOnce | app/alarm-service/internal/rule/window.go:18-20 | an event redelivered before the trigger is not counted twice |
| SlidingWindow.WindowCounter.Add | app/alarm-service/internal/rule/window.go:46-60 | triggers exactly if the history says so, with the count of the history |
| SlidingWindow.WindowCounter.Eval | app/alarm-service/internal/rule/window.go:16-26 | the in-place script is the specified step |
| TokenBucket.LevelInRange | gateway/internal/middleware/ratelimit.go:25-31 | tokens stay between zero and the burst |
| TokenBucket.ExpiredMeansFull | gateway/internal/middleware/ratelimit.go:32-32 | a key old enough to expire stands for a full bucket |
| TokenBucket.ServeTracks | gateway/internal/middleware/ratelimit.go:19-35 | one script run decides as an eagerly refilled bucket and keeps tracking it, also when it writes nothing |
| TokenBucket.ScriptRefinesBucket | gateway/internal/middleware/ratelimit.go:19-35 | in every run the script admits exactly what the eager bucket that never expires admits |
| TokenBucket.LevelIsTightestBound | gateway/internal/middleware/ratelimit.go:25-31 | the level is at most burst plus refill minus admissions since any earlier request |
| TokenBucket.LevelAttainsBound | gateway/internal/middleware/ratelimit.go:25-31 | and equals it for one of them |
| TokenBucket.AdmittedIffConforming | gateway/internal/middleware/ratelimit.go:19-35 | a request is admitted if and only if every window that ends with it stays within burst plus rate times its length |
| TokenBucket.RateBound | gateway/internal/middleware/ratelimit.go:19-35 | between any two moments at most burst plus rate times their distance are admitted |
| TokenBucket.RateLimit.Eval | gateway/internal/middleware/ratelimit.go:19-35 | the in-place script is the specified step |
| TokenBucket.RateLimit.ConformsToRate | gateway/internal/middleware/ratelimit.go:19-35 | the script admits a request if and only if every window that ends with it holds at most the capacity of the limiter and its rate times the length |
| TokenBucket.AdmittedWithinRate | gateway/internal/middleware/ratelimit.go:19-35 | between any two moments a limiter lets at most its capacity and its rate times their distance pass |
| TokenBucket.RateLimit.Serve | gateway/internal/middleware/ratelimit.go:41-63 | with a working store a request passes exactly if every window that ends with it holds at most the capacity and the rate times its length; without one, or on an error, it passes |
| ShadowMerge.UpdateIsWrite | app/device-service/internal/model/shadow_model.go:55-63 | a successful conditional update is one more write of the history: what was read is the state at the matched version |
| ShadowMerge.StepKeepsInv | app/device-service/internal/mq/telemetry.go:195-232 | every step of any merge or replacing writer keeps the row equal to the replayed history |
| ShadowMerge.Linearises | app/device-service/internal/mq/telemetry.go:195-232 | the version counts the successful writes and the row is their fold in version order |
| ShadowMerge.AppliedExactlyOnce | app/device-service/internal/mq/telemetry.go:195-232 | a merge that returns nil is applied once, one that runs out of attempts never, any other at most once |
| ShadowMerge.ExhaustedMeansOthersWrote | app/device-service/internal/mq/telemetry.go:196-231 | a merge gives up only after three successful writes by others |
| ShadowMerge.ThreeAttempts | app/device-service/internal/mq/telemetry.go:190-232 | in every run a merge makes at most three attempts, and exactly three before it gives up |
| ShadowMerge.ReportedIsLastWrite | app/device-service/internal/mq/telemetry.go:208-214 | for every history, replacements included: what is reported of a key is what the last write gives it that replaces the document or carries the key, and nothing without one |
| ShadowMerge.DesiredIsLastSet | app/device-service/internal/model/shadow_model.go:45-53 | for every history: what is desired is what the last write of the desired document gave, which no merge or replacement of the reported one changes |
| ShadowMerge.NoErrorOnceRowExists | app/device-service/internal/mq/telemetry.go:197-206 | without faults a merge that begins with the row in place never returns an error |
| ShadowMerge.ErrorIffRaceLost | app/device-service/internal/mq/telemetry.go:197-206 | without faults a merge returns an error if and only if its read found no row and its insert then met one |
| ShadowMerge.ErrorPossibleIffNoRow | app/device-service/internal/mq/telemetry.go:197-206 | from any state reached without faults, a merge that begins can come to an error without one if and only if there is no row yet |
| ShadowMerge.InsertRaceLosesReport | app/device-service/internal/mq/telemetry.go:199-206 | a run without faults in which two merges create the missing row and the slower one fails, its metrics gone |
| ShadowMerge.ShadowHandler.FindOrInsert | app/device-service/internal/mq/telemetry.go:197-206 | the row, or a new one; without a fault an error means that another created it meanwhile |
| ShadowMerge.ShadowHandler.UpdateReported | app/device-service/internal/model/shadow_model.go:55-63 | changes the row exactly if the version matches, and says so |
| ShadowMerge.ShadowHandler.AttemptMerge | app/device-service/internal/mq/telemetry.go:197-228 | one attempt ends applied, with an error that has a cause, or in a conflict to be retried |
| ShadowMerge.ShadowHandler.MergeReported | app/device-service/internal/mq/telemetry.go:195-232 | nil means one write of the history with these metrics; an error means a fault or a missing row |
| LockProtocol.SetNx | common/lock/lock.go:64-79 | a live key is never overwritten |
| LockProtocol.RenewScript | common/lock/lock.go:26-31 | only the matching live token is extended |
| LockProtocol.AcquireMs | common/lock/lock.go:64-79 | the lease in milliseconds is the whole number of them, and one for a shorter one |
| LockProtocol.UnlockScript | common/lock/lock.go:34-39 | only the matching live token is deleted |
| LockProtocol.StepKeepsInv | common/lock/lock.go:26-124 | every command of any client, at any time of the store, keeps the leases in line with the key |
| LockProtocol.OwnershipDisjoint | common/lock/lock.go:26-124 | ownership intervals of different tokens are disjoint, in the order of acquisition |
| LockProtocol.AtMostOneOwner | common/lock/lock.go:64-124 | two clients never have lease time left at once, and the one that has is the latest acquirer and in the store |
| LockProtocol.StoredIsLatest | common/lock/lock.go:64-79 | whatever the store holds is the token of the latest acquisition |
| LockProtocol.StaleHolderChangesNothing | common/lock/lock.go:26-39 | the renewal and the unlock of a stale holder change nothing and say so |
| LockProtocol.HeldBetweenRenewals | common/lock/lock.go:102-124 | a lock that is not given up is held as long as its last grant is younger than the lease |
| LockProtocol.RenewalKeepsLockIffWholeMillisecond | common/lock/lock.go:109-118 | a successful renewal keeps the lock if and only if the lease is at least a millisecond; a shorter one deletes the key and lets another in |
| Lock.Locker.TryLock | common/lock/lock.go:64-79 | each outcome and the key after it, for every fault; a handle exactly on success, with its watchdog running |
| Lock.Handle.Unlock | common/lock/lock.go:82-99 | runs once; deletes only its own live key; each outcome exactly |
| Lock.Handle.Watch | common/lock/lock.go:102-124 | goes on exactly if the key held its token and the store said so; the new lease exactly |
| Lock.HandlesExclude | common/lock/lock.go:64-124 | two handles that both have lease time left are of one acquisition, the latest, and its token is in the store |
| Breaker.HistoryDescribesState | gateway/internal/proxy/proxy.go:63-93 | the three fields are functions of the calls: failures since the last success, the latest failure time, and whether a probe is out |
| Breaker.AllowsIffAdmitted | gateway/internal/proxy/proxy.go:63-76 | a request is let through if and only if fewer than five failures were recorded since the last success, or the cooldown is over and no probe is out |
| Breaker.AdmissionInNumbers | gateway/internal/proxy/proxy.go:34-37 | a request is turned away if and only if five failures were recorded since the last success and ten seconds have not passed since the latest, or a probe is out |
| Breaker.NotClosedIffFiveFailures | gateway/internal/proxy/proxy.go:78-93 | not closed exactly when five failures are counted, by the field and by the history |
| Breaker.OneProbeOnly | gateway/internal/proxy/proxy.go:67-75 | after a probe is let through nobody else is, however many ask and when |
| Breaker.TripRejectsIffRequestWasShort | gateway/internal/proxy/proxy.go:119-139 | the cooldown runs from the start of the failing request: a trip turns the next request away if and only if that took less than the cooldown |
| Breaker.CircuitBreaker.Allow | gateway/internal/proxy/proxy.go:63-76 | answers as the history says |
| Breaker.CircuitBreaker.Record | gateway/internal/proxy/proxy.go:78-93 | the fields stay functions of the history |
| Breaker.CircuitBreaker.Handle | gateway/internal/proxy/proxy.go:119-139 | a request is forwarded exactly if admitted, and then recorded as a success for a status from 1 to 499 |
| BreakerRaces.AloneIsAtomic | gateway/internal/proxy/proxy.go:63-93 | a call whose atomic operations are not interrupted is the atomic step |
| BreakerRaces.ProbeRespectsCooldownUnlessOverwritten | gateway/internal/proxy/proxy.go:67-73 | in every interleaving a probe respects the cooldown unless the opening time changed between its check and its swap |
| BreakerRaces.ProbeBreaksCooldownIffStamped | gateway/internal/proxy/proxy.go:63-93 | in every interleaving a swap lets a request through before the cooldown is over if and only if a failure was stamped since its check, less than a cooldown before |
| BreakerRaces.SerialRecordsAgree | gateway/internal/proxy/proxy.go:63-93 | if records do not overlap, then in every interleaving with requests closed means fewer than five failures |
| BreakerRaces.AgreeIffLatestStoreFits | gateway/internal/proxy/proxy.go:63-93 | in every interleaving of any calls, with no record under way, closed means fewer than five failures if and only if the latest store of the mode closed it with fewer than five counted or opened it with five |
| BreakerRaces.OverlapClosesWithFiveFailures | gateway/internal/proxy/proxy.go:78-93 | an interleaving that ends closed with five failures counted |
| BreakerRaces.OverlapOpensWithoutFailures | gateway/internal/proxy/proxy.go:78-93 | an interleaving that ends open with no failure counted |
| BreakerRaces.StaleCheckAdmitsDuringCooldown | gateway/internal/proxy/proxy.go:67-73 | an interleaving that lets a second request through in the middle of a cooldown |
| Routes.LongestMatchIsUnique | gateway/internal/proxy/proxy.go:196-201 | the longest matching prefix of a path is unique, so an unstable sort cannot change the route |
| Routes.PrefixIff | gateway/internal/proxy/proxy.go:228-237 | a path begins with exactly the prefixes that some text completes to it |
| Routes.SortByLength | gateway/internal/proxy/proxy.go:196-201 | the same routes, longest prefix first |
| Routes.Gateway.Reload | gateway/internal/proxy/proxy.go:162-203 | all upstreams or, if a target is no URL, the table as it was |
| Routes.Gateway.Find | gateway/internal/proxy/proxy.go:228-237 | none if and only if no upstream matches, else one with the longest matching prefix |
| RemoteOpenProtocol.StepKeepsInv | app/access-control-service/internal/logic/remoteopenlogic.go:69-121 | under all faults every step keeps for each key that does not expire: it belongs to the one request at work on it, confirmed, or orphaned by a lost claim reply or release |
| RemoteOpenProtocol.AtMostOne | app/access-control-service/internal/logic/remoteopenlogic.go:69-121 | within the time to live of a key and under all faults, at most one request is past the check without an answer, at most one is ever confirmed, never both |
| RemoteOpenProtocol.KeyMeansConfirmed | app/access-control-service/internal/logic/remoteopenlogic.go:153-164 | with no request on it at work a key is present if and only if an open was confirmed or the key was orphaned, never both |
| RemoteOpenProtocol.DuplicateAnswerTruthful | app/access-control-service/internal/logic/remoteopenlogic.go:76-84 | under all faults the success told to a duplicate is true if and only if no request on the key is still at work and the key was not orphaned |
| RemoteOpenProtocol.OpensAreAccounted | app/access-control-service/internal/logic/remoteopenlogic.go:99-121 | the door opened once per unheard opening and once more if an open was confirmed |
| RemoteOpenProtocol.FollowedIsUnheard | app/access-control-service/internal/logic/remoteopenlogic.go:99-121 | an opening that another one on the key follows failed or timed out |
| RemoteOpenProtocol.DoorOpensAtMostOnce | app/access-control-service/internal/logic/remoteopenlogic.go:69-121 | the door opens at most once for a key if and only if no command that opened it failed or timed out before another one opened it |
| RemoteOpenProtocol.KeysAreOwned | app/access-control-service/internal/logic/remoteopenlogic.go:133-144 | in every run a key was claimed by a request with this key that asked before |
| RemoteOpenProtocol.DuplicateFollowsAnother | app/access-control-service/internal/logic/remoteopenlogic.go:133-144 | within the time to live of a key a request that is answered as a duplicate follows another one on the key that is at work, confirmed or orphaned |
| RemoteOpenProtocol.DuplicateToldSuccessForNothing | app/access-control-service/internal/logic/remoteopenlogic.go:76-97 | a run: a duplicate is told success and the door never opens for the key |
| RemoteOpenProtocol.LateClaimToldSuccess | app/access-control-service/internal/logic/remoteopenlogic.go:72-84 | a run: the claim takes effect unheard, and the retry is told success with nobody at work and the door never opened |
| RemoteOpenProtocol.LostReleaseToldSuccess | app/access-control-service/internal/logic/remoteopenlogic.go:86-97 | a run: the same after a refusal whose release is lost |
| RemoteOpenProtocol.TimeoutOpensDoorTwice | app/access-control-service/internal/logic/remoteopenlogic.go:99-118 | a run: the device obeys, the reply times out, the key is given back and the retry opens the door again |
| RemoteOpen.Authorized | app/access-control-service/internal/logic/remoteopenlogic.go:173-202 | a permission decides alone; without one, or on an error, the allowlist; an empty one allows nobody |
| RemoteOpen.KeysSharedIff | app/access-control-service/internal/logic/remoteopenlogic.go:123-140 | two requests share a key if and only if they are deduplicated and have the same tenant and the same id, which is not empty |
| RemoteOpen.RemoteOpenService.KeyHasOwner | app/access-control-service/internal/logic/remoteopenlogic.go:123-144 | any key in the store was claimed by a request of its tenant with its id that asked before |
| RemoteOpen.RemoteOpenService.IsDuplicate | app/access-control-service/internal/logic/remoteopenlogic.go:133-144 | claims the key for this request, if it has one |
| RemoteOpen.RemoteOpenService.ReleaseDuplicate | app/access-control-service/internal/logic/remoteopenlogic.go:153-164 | deletes the key of this request only |
| RemoteOpen.RemoteOpenService.SendCommand | app/access-control-service/internal/logic/remoteopenlogic.go:206-234 | one command; the result is that of the reply, the door may have opened anyway |
| RemoteOpen.RemoteOpenService.Log | app/access-control-service/internal/logic/remoteopenlogic.go:237-281 | one entry each with the true result, if it could be written |
| RemoteOpen.RemoteOpenService.Deliver | app/access-control-service/internal/logic/remoteopenlogic.go:99-121 | logged before the key is given back; the key stays exactly on a confirmed open or an ineffective release |
| RemoteOpen.RemoteOpenService.Perform | app/access-control-service/internal/logic/remoteopenlogic.go:86-121 | without authorisation nothing is commanded, a failure is logged and the key is given back |
| RemoteOpen.RemoteOpenService.Process | app/access-control-service/internal/logic/remoteopenlogic.go:72-121 | the same for a request that has its key, if any |
| RemoteOpen.RemoteOpenService.Open | app/access-control-service/internal/logic/remoteopenlogic.go:51-121 | the answer, the openings, both logs and the keys, for every combination of faults and replies; a duplicate was preceded by a request of the same tenant with the same id; the key of any other tenant or id is as it was |
| Money.Round2Close | app/billing-service/internal/calc/price.go:271-273 | rounding moves a value by at most half a cent, to whole cents, and not below zero |
| Money.Round2Monotone | app/billing-service/internal/calc/price.go:271-273 | rounding keeps the order |
| Money.Round2Cents | app/billing-service/internal/calc/price.go:271-273 | rounding changes nothing that is in cents, negative values included |
| Money.HalvesGoAway | app/billing-service/internal/calc/price.go:271-273 | half a cent goes away from zero, on both sides |
| Tiered.SharesCoverUsage | app/billing-service/internal/calc/price.go:65-114 | the shares add up to the usage below the highest cap, or to all of it once a tier has no cap |
| Tiered.CalcTiered | app/billing-service/internal/calc/price.go:65-114 | for any tier list each line is the overlap of the usage with the gap its tier adds, and the total is exactly the sum of the lines |
| Tiered.BillMonotone | app/billing-service/internal/calc/price.go:98-113 | more usage never costs less, when no price is negative |
| Tiered.BillNearExact | app/billing-service/internal/calc/price.go:98-113 | the bill is within half a cent per line of the unrounded price |
| Tiered.OtherTiersActDeleted | app/billing-service/internal/calc/price.go:82-90 | a tier whose cap is no record, or after one without a cap, acts as if deleted |
| Tiered.ValidateTiers | app/billing-service/internal/logic/rulecreatelogic.go:87-106 | accepts exactly the lists without negative price, with rising caps and none missing but the last |
| Tiered.ValidTiersAllCount | app/billing-service/internal/logic/rulecreatelogic.go:87-106 | a validated list has no tier to delete |
| Tiered.FullyBilledIff | app/billing-service/internal/calc/price.go:65-114 | a bill covers the whole usage if and only if some tier has no cap or the usage is within the highest |
| Tou.ParseClock | app/billing-service/internal/calc/price.go:205-216 | an hour of the day, if anything |
| Tou.ReversePartitionsDay | app/billing-service/internal/calc/price.go:188-203 | a period and its reverse partition the hours, unless both are empty |
| Tou.PeriodIsForwardWalk | app/billing-service/internal/calc/price.go:188-203 | a period is the hours met walking forward from its start before its end, across midnight too |
| Tou.AcceptedClockRead | app/billing-service/internal/logic/rulecreatelogic.go:108-121 | billing reads a clock that validation accepts as it is meant if and only if its hour has two digits, and else reads nothing |
| Tou.ClockInNumbers | app/billing-service/internal/calc/price.go:205-216 | two numbers of two digits, whatever stands between and after them, are read as the first one if they are an hour and a minute, and as nothing else |
| Tou.AcceptedPeriodAppliesIff | app/billing-service/internal/calc/price.go:188-216 | a validated period is billed in some hour if and only if both its clocks have two-digit hours and the hours differ |
| Tou.ValidatePeriods | app/billing-service/internal/logic/rulecreatelogic.go:107-121 | accepts exactly the periods with accepted clocks and prices that are not negative |
| Tou.PeriodWithinHourIsEmpty | app/billing-service/internal/calc/price.go:188-203 | two clocks in the same hour make an empty period |
| Tou.FirstMatch | app/billing-service/internal/calc/price.go:131-141 | the first period that matches, and none before it does |
| Tou.PriceOfHour | app/billing-service/internal/calc/price.go:131-141 | an hour has the price and name of the first period that contains it, and without one the base price and the name 平 |
| Tou.HourTable | app/billing-service/internal/calc/price.go:128-141 | price and name of every hour are those of the first match or the base |
| Tou.NamesPartitionHours | app/billing-service/internal/calc/price.go:143-183 | the lines partition the hours: their amounts, and their usage before rounding, add up to those of the valid input |
| Tou.OrderDoesNotMatter | app/billing-service/internal/calc/price.go:152-170 | total and usage are the same for every permutation of the hours |
| Tou.AmountsNearExact | app/billing-service/internal/calc/price.go:152-170 | the sum of the rounded amounts is within half a cent per counted hour of the sum of usage times price |
| Tou.Collect | app/billing-service/internal/calc/price.go:153-170 | adding an hour keeps every bucket equal to the sums over the hours of its name |
| Tou.Lines | app/billing-service/internal/calc/price.go:172-181 | one line per bucket, with the sums over the hours of its name, and amounts that need no second rounding |
| Tou.CalcTou | app/billing-service/internal/calc/price.go:123-183 | the total is within half a cent per counted hour of the sum of usage times price, and so is the amount of each line for its hours; it is the sum of the rounded amounts of the hours and of the lines; one line for each name that occurs, by first occurrence, and no other |
| HourlyUsage.Selected | app/billing-service/internal/model/energy_reading.go:66-68 | exactly the readings of the zone in the interval |
| HourlyUsage.HourOfTime | app/billing-service/internal/model/energy_reading.go:64-74 | second s of hour h of a day falls in clock hour h, and two times are in one bucket if and only if day and hour agree |
| HourlyUsage.HoursPartition | app/billing-service/internal/model/energy_reading.go:103-118 | the sums over the clock hours make the sum of all increases |
| HourlyUsage.DevicesPartition | app/billing-service/internal/model/energy_reading.go:103-118 | and so do the sums over the meters |
| HourlyUsage.DeviceGains | app/billing-service/internal/model/energy_reading.go:103-118 | of one meter at least last minus first is credited, and exactly that if and only if no reading is below the one before |
| HourlyUsage.EndsOfDevice | app/billing-service/internal/model/energy_reading.go:66-101 | whatever the queries answer, the differences of a meter begin at a first reading and end at a last one |
| HourlyUsage.SpanOfDevice | app/billing-service/internal/model/energy_reading.go:38-48 | where meters only count up, highest and lowest are last and first |
| HourlyUsage.NetWithinSpan | app/billing-service/internal/model/energy_reading.go:38-48 | the movement of a meter from first to last is at most highest less lowest, and equal exactly if the ends are the extremes |
| HourlyUsage.EnergyConserved | app/billing-service/internal/model/energy_reading.go:38-127 | for all readings both what the hours are credited and the total usage are at least the net movement of all meters; the first is equal to it if and only if none drops, the second if and only if the ends of each are its extremes |
| HourlyUsage.TotalsAgreeIff | app/billing-service/internal/model/energy_reading.go:38-127 | hours, net movement and total usage all agree if and only if no meter drops and its first reading is its lowest and its last the highest, as with meters that only count up |
| HourlyUsage.ResetSplitsTotals | app/billing-service/internal/model/energy_reading.go:38-127 | a meter reset, which is a drop, makes the two totals of one interval differ: 10 against 110 |
| HourlyUsage.Difference | app/billing-service/internal/model/energy_reading.go:102-118 | the map holds, per clock hour, the sum of the increases of the specified differences, and no hour without |
| HourlyUsage.Sorted | app/billing-service/internal/model/energy_reading.go:120-125 | the entries of the map in the order of the clock |
| HourlyUsage.ListHourlyUsage | app/billing-service/internal/model/energy_reading.go:62-127 | for any order of the answers the list is one entry per hour that gained, and adds up to the total usage where meters only count up |
| Snowflake.OrIsSum | common/idgen/idgen.go:62-65 | or of a multiple of a power of two with anything below it is their sum |
| Snowflake.MaskIsRemainder | common/idgen/idgen.go:51-51 | masking with k ones is the remainder by two to the k |
| Snowflake.PackIsSum | common/idgen/idgen.go:62-65 | the three fields do not overlap: shifted and or-ed in 64 bits they are their sum with the time cut to 42 bits |
| Snowflake.PackInNumbers | common/idgen/idgen.go:13-22 | worker and sequence take 10 and 12 bits, and the time counts from 1,700,000,000,000 ms |
| Snowflake.UnpackPack | common/idgen/idgen.go:62-65 | worker and sequence can always be read back from an identifier, and the time if and only if it is less than 2^41 from the epoch |
| Snowflake.WorkersNeverCollide | common/idgen/idgen.go:62-65 | different workers never share an identifier, whatever the clocks say |
| Snowflake.PackIncreases | common/idgen/idgen.go:62-65 | a later stamp packs to a larger identifier while its time fits |
| Snowflake.OrderKeptIff | common/idgen/idgen.go:62-65 | for twice that time the order is kept if and only if both times fit or neither does |
| Snowflake.TimeWrapsAround | common/idgen/idgen.go:13-22 | beyond 41 bits identifiers turn negative, and after twice that time they repeat |
| Snowflake.IdsIncrease | common/idgen/idgen.go:40-66 | for every sequence of clock readings stamps strictly increase, and so do the identifiers while the time fits |
| Snowflake.RunsNeverCollide | common/idgen/idgen.go:40-66 | no two identifiers of any runs of different workers are equal |
| Snowflake.Masked | common/idgen/idgen.go:51-51 | the sequence goes from 0 to 4095 and round |
| Snowflake.Generator.Wait | common/idgen/idgen.go:52-57 | takes the readings of the clock one after the other, up to the first past the last time and no further |
| Snowflake.Generator.Advance | common/idgen/idgen.go:50-60 | time and sequence of the next identifier are those of the specified step |
| Snowflake.Generator.NextID | common/idgen/idgen.go:40-66 | the call is one step of the run on the readings of the clock, one unless the millisecond is used up; refused exactly if the clock stepped back |
| Snowflake.NewGenerator | common/idgen/idgen.go:32-37 | a generator exactly for workers 0 to 1023 |
| Dispatch.TrimCuts | app/dispatch-service/internal/assign/assign.go:83-85 | trimming cuts dashes and slashes at both ends and leaves none |
| Dispatch.JoinSplit | app/dispatch-service/internal/assign/assign.go:83-85 | the parts have no dash and joined give the code back |
| Dispatch.SplitJoin | app/dispatch-service/internal/assign/assign.go:83-85 | splitting is the only way to cut at dashes |
| Dispatch.FloorHasBuilding | app/dispatch-service/internal/assign/assign.go:70-81 | zones on one floor are in one building |
| Dispatch.ZonesFormUltrametric | app/dispatch-service/internal/assign/assign.go:53-67 | the distance is symmetric, meets the strong triangle inequality, and is zero exactly between equal known zones |
| Dispatch.DistanceMeans | app/dispatch-service/internal/assign/assign.go:53-67 | at most 1 is the same floor, at most 2 the same building |
| Dispatch.SameFloorIff | app/dispatch-service/internal/assign/assign.go:70-85 | two codes are on one floor if and only if their first two parts agree, or the only one |
| Dispatch.DistanceInParts | app/dispatch-service/internal/assign/assign.go:53-85 | 0, at most 1 and at most 2 are the same code, the same first two parts and the same first part |
| Dispatch.ScoreIsLexicographic | app/dispatch-service/internal/assign/assign.go:105-129 | for loads of at least zero the weighted score orders as skill, then distance, then capped load |
| Dispatch.LexicographicIff | app/dispatch-service/internal/assign/assign.go:105-129 | zero is the lowest bound on loads for which it does |
| Dispatch.Pick | app/dispatch-service/internal/assign/assign.go:135-150 | nobody if and only if there are no candidates; else the first of those with the highest score |
| Dispatch.ChoiceIsFirstOfBest | app/dispatch-service/internal/assign/assign.go:131-150 | the choice is unique, no other is better in the three criteria, none before it is as good, and it has the skill if anyone has |
| Dispatch.ChoiceIsPreferred | app/dispatch-service/internal/assign/assign.go:87-150 | nobody is preferred to the choice, and it is preferred to all before it: skill first, then the nearer zone, then the lower load up to 99 |
| LikeEscape.ThreePassesAreOne | app/alarm-service/internal/model/alarm_model.go:288-293 | the three replacements in turn are one pass that escapes each special character once |
| LikeEscape.EscapedReadsBack | app/alarm-service/internal/model/alarm_model.go:288-293 | an escaped keyword read as a pattern is its own characters |
| LikeEscape.LiteralMatchesPrefix | app/alarm-service/internal/model/alarm_model.go:279-283 | characters followed by any string match exactly the strings that begin with them |
| LikeEscape.SearchFindsExactly | app/alarm-service/internal/model/alarm_model.go:279-293 | the pattern matches exactly the contents that contain the keyword |
| LikeEscape.BareKeywordWorksIff | app/alarm-service/internal/model/alarm_model.go:279-293 | without escaping that holds if and only if the keyword has no special character |

## Left out

- JSON, protobuf and payload parsing: a message carries what it decodes to, or nothing; a stored shadow document that is the JSON value null is not modelled.
- The rule condition language over JSON values: the answer of each condition, or its error, is an input.
- SHA-1 fingerprints and random tokens: an injective fingerprint, and distinct tokens; the cooldown key is a record and not a string with separators. `alarm_no` is taken to be free of collisions.
- IEEE floating point and the text of numbers inside Lua: real numbers. The rounding of halves is modelled, the representation error of decimal fractions is not.
- Clocks: the scripts see nondecreasing times of one clock, and a key expires by that clock. A process that has no rule store is not modelled. The clock of identifiers may step back and stand still. The engine reads its table and the time at one instant.
- The int32 failure count, the uint32 shadow version and the int64 of loads do not overflow; the int64 of identifiers does, as in the code.
- TokenBucket.RateLimit.constructor: a rate of zero or less is not modelled, since the script divides by it.
- KeyStore.SetIfAbsent: says nothing of the time to live; the transition systems let keys expire at any moment instead.
- Alarm broadcast, search index and notification after an insert: their failures are ignored by design.
- Validation of the parameters of a remote open, and the display texts of all answers and bill lines; tier names carry the place, the start and the cap that the text is made from.
- RemoteOpenProtocol.AtMostOne: for runs within the time to live of the key, which does not expire in them; all faults are allowed, and other keys may do anything. `KeyMeansConfirmed`, `DuplicateAnswerTruthful`, `OpensAreAccounted` and `DoorOpensAtMostOnce` likewise.
- Deletion and new creation of a shadow row, after which versions start again at zero.
- LockProtocol.HeldBetweenRenewals: says nothing of whether the watchdog is scheduled in time; liveness by the wall clock is left out.
- Query errors of the hourly usage are passed on as they are. The two queries see the same readings; a reading that arrives between them is not modelled.
- Dispatch: trimming of space and case folding of skills are a function that is passed in; the pool of candidates is an input.
- LikeEscape.SearchFindsExactly: characters are compared as such, without a collation; how the server's SQL mode reads the backslash in the ESCAPE clause is not modelled.
- The choice of a canary target (proxy.go:106-117), CORS and the headers of the gateway.
- Flat prices and the validation of rule names and types: one-line checks. The time package of Go is not part of this model; which clocks it accepts for the layout 15:04 is `Tou.AcceptedHour`.
- Command logs of devices, list queries, paging, accounts and permissions tables: plain reads and writes.
- Kafka, MQTT, the time-series store and sockets.
