# Notification relay: a verified model

The relay accepts notifications over HTTP and SMTP, fans each one out to the members of LDAP groups
and to direct destinations, delivers by SMS, voice and e-mail, and follows the provider's delivery
statuses until they settle. This project models its stateful parts in Dafny and proves what they
promise. `dafny verify dfyconfig.toml` checks all of it.

| files | part of the system |
|---|---|
| `Retry`, `FanOut` | the retry loop of one delivery; the loops that fan one notification out |
| `Engine`, `EngineProofs`, `EngineTheorems`, `EngineQueue`, `EngineProgress` | producers, queue, workers, goroutines, the counting semaphore and the WaitGroup as a step system, and what all its interleavings keep |
| `Poller`, `PollerSystem` | one status check; the two poller goroutines and the dispatcher on one table, one database statement at a time |
| `AuthCache`, `RecencyList`, `CachedAuthenticator`, `AuthCacheShared` | the LRU and TTL cache: as a value, as a linked list of heap nodes with an index, and under concurrent callers |
| `Recipient`, `RecipientParts`, `SmtpSession` | the address parser and its printer; the per-connection state machine and the staged commit of a message |
| `GroupSync`, `Directory` | the transactional replacement of LDAP group rows; what the dispatcher then reads of them |
| `TimeText`, `Events` | normalised time strings and their order; the life of an event, with the background sweep |
| `Uuid` | version 7 identifiers |
| `UiSessions` | browser sessions with sliding expiry |
| `EmailVars` | template data and the single attempt of an e-mail delivery |
| `SubjectVars` | the e-mail variables stored with a message that came over SMTP, and what decoding makes of them |

Code that changes things in place is modelled in place: `class`es with fields for the poller's table,
the cache, the SMTP session, the syncer, the event and session stores, and an array for the
identifier's bytes. Each such method is proved equal to a function of its old state, and the theorems
are about those functions. Concurrency is modelled by step systems, in which every database statement,
channel operation, provider call and critical section is one step and any interleaving may happen.

## Assumptions

- Generated ids (notifications, deliveries, tokens) are fresh; they are opaque names.
- Clocks do not run backwards, where a theorem takes a clock.
- A database statement is atomic. It may fail, unless a theorem says otherwise: failures are explicit
  inputs, and history counters (`faults`, `lost`) let theorems speak of runs with and without them.
- Providers, LDAP, the mail server and the role table answer arbitrarily.
- `RetryLimit` may be any number. With a limit of zero or less the loop still writes a row, with an
  empty status and attempt 0; `Retry.Deliver` states this.

## What the proofs found

- **Cache keys.** `user:password` texts of different usernames can coincide exactly when one username
  followed by `:` is a prefix of the other (`AuthCacheShared.TextsCollideIff`, `CollisionExample`).
- **Recipient round trip.** A group that still starts with `<`, or a relay domain ending in white
  space or `>`, does not survive printing and parsing (`Recipient.RoundTripIff`,
  `DoubleBracketExample`).
- **Ending an event now.** Without a supplied time the end is not compared with the start, so an event
  announced for the future can end before it starts (`Events.ClockEndBeforeStartIff`,
  `EarlyEndExample`).
- **Years past 9999 and before 0.** Stored times are compared as strings. For all instants that agrees
  with comparing the instants exactly while their years compare (`TimeText.OrderAgreesIff`): always
  for years 0 to 9999, but not for year 10000 against the years 1001 to 9999, nor for two years before
  0 with equally many digits. Plain epoch seconds reach both (`Year10000Accepted`, `Year10000Misorders`;
  `YearMinusOneAccepted`, `YearMinusTwoAccepted`, `YearsBeforeZeroMisorder`).
- **Ends before starts.** Hence an end a caller supplies is accepted although it is before the start,
  and a sweep closes an event that has not started, exactly when the two years do not compare
  (`Events.CallerEndBeforeStartIff`, `SweptBeforeStartIff`; `Year10000EndExample`,
  `Year10000SweepExample`). Within the years 0 to 9999 neither happens (`Events.EndsFollowStarts`).
- **Quoted subjects.** The subject of a message is pasted between quotes into a JSON text
  (`smtpapi/session.go:274`). It reads back as itself exactly when it contains no quote, backslash or
  control character (`SubjectVars.SubjectSurvivesIff`), and a quote makes every e-mail delivery of the
  message fail, unless the text after it happens to continue the object
  (`SubjectVars.QuoteFailsDeliveries`, `QuotedSubjectExample`).
- **Poll budget.** A row in flight is counted past the limit exactly when a counted failure follows a
  failed give-up mark of that row (`PollerSystem.PollBudget`, `OverTheLimitExample`).
- **`walkPath`.** Its comment (`notify/dispatcher.go:773-775`) asks for a non-nil value; the code only
  asks that the key exists, and the two differ exactly on paths to a null
  (`EmailVars.WalkPathIsNonNilIff`, `NullPathExample`).
- **Member count of a group sync.** The count returned includes members skipped for a blank username;
  it is the number of rows stored exactly when there is none (`GroupSync.CountIsRowsStoredIff`,
  `BlankMemberExample`).

## Model

| member | source | states |
|---|---|---|
| Retry.Deliver | notify/dispatcher.go:267-321 | The recorded attempt is the number of provider calls, within 1..limit; only the last call can be a success; without cancellation the row carries the first success or else the last error; no row is written exactly when a wait after a failure was cancelled |
| Retry.TotalBackoffClosedForm | notify/dispatcher.go:274-282 | The waits before attempt k add up to RetryDelay * (2^(k-1) - 1) |
| Retry.WaitsAddUp | notify/dispatcher.go:274-282 | The waits Deliver makes, whatever their number, add up to that form as long as the longest fits 64 bits |
| Retry.DelaysFitIff | notify/dispatcher.go:276 | For every setting, negative ones included, no delay of a run wraps around in 64-bit signed nanoseconds if and only if there is none or RetryDelay * 2^(RetryLimit-2) fits |
| FanOut.FanOutJob | notify/dispatcher.go:132-235 | The three nested loops launch exactly the sequential plan, in order; the count returned is the number of listed members, one for every position of every group's own listing, plus the destinations |
| FanOut.ListedMembersAt | notify/dispatcher.go:141-149 | The set counted holds exactly the pairs (i, j) such that the i-th group's query listed a j-th member |
| FanOut.FanOutGroup | notify/dispatcher.go:150-193 | The member loop of one group emits that group's part of the plan |
| FanOut.FanOutMember | notify/dispatcher.go:151-192 | One member gets an SMS launch or a withheld row, a voice launch and an e-mail launch, each exactly when its conditions hold |
| FanOut.ChannelSet | notify/dispatcher.go:132-135 | The map built holds exactly the requested channels |
| FanOut.PlanDependsOnChannelSet | notify/dispatcher.go:132-135 | The plan depends on the set of requested channels, not on their order or repeats |
| FanOut.PlanCountsListings | notify/dispatcher.go:141-231 | By counting, whatever the queries answered: a (group, member, channel) row occurs once per eligible member of that name in each listing of the group, a destination row once per time it is listed if its channel has a provider, and nothing else occurs |
| FanOut.PlanCounts | notify/dispatcher.go:141-231 | On a directory that stays as it is and has no repeated usernames, that is once per time the group is listed if someone of that name is eligible |
| FanOut.ItemsJustified | notify/dispatcher.go:141-231 | Whatever the queries answered, every item of the plan is there for a listed member's eligible channel or a listed destination: withheld only without a subscription, otherwise retried or mailed as its channel demands, and without effect only when its channel has no provider |
| Directory.VoiceDialsANumber | notify/dispatcher.go:340-344 | In every table the syncer leaves, a listed member eligible for voice is dialled on a non-empty number: the mobile one if there is one, and otherwise the work one |
| Directory.EmptyTestsAreNullTests | notify/dispatcher.go:151-183 | In those tables the tests for an empty column exclude nothing the tests for NULL do not |
| Directory.EligibleIsStored | notify/dispatcher.go:142-183 | Someone of a name is eligible in a listing if and only if the stored row of that name is |
| Directory.ReachedAsInLdap | ldap/sync.go:147-154 | End to end: whoever a listing names has the mobile number, work number and address of an LDAP entry of that name synchronised into that group, and is dialled on the mobile number, or the work one where LDAP has no mobile |
| EngineProofs.StepKeepsInv | notify/dispatcher.go:77-250 | Every action of every participant keeps the whole invariant: queue and owner bookkeeping, semaphore and WaitGroup counters, legal call histories, and conservation of planned rows |
| EngineProofs.ReachableInv | notify/dispatcher.go:77-250 | Hence it holds in every state of every run |
| EngineTheorems.FanOutConserved | notify/dispatcher.go:132-241 | When a job's status is terminal its written and lost rows together are exactly the sequential plan, and the status is the one the plan dictates, whatever the interleaving |
| EngineTheorems.FanOutConfluent | notify/dispatcher.go:132-241 | Without failed statements or cancellation nothing is lost, so any two such runs of one plan agree on whom they wrote rows for, how often, and on the verdict |
| EngineTheorems.FanOutByListing | notify/dispatcher.go:132-249 | End to end, whatever the queries answered: one row per listing of a group, eligible member and channel, one per deliverable destination, nothing else; "completed" if and only if something was listed; the stored count is the number of listed (group position, member position) pairs plus the number of destinations |
| EngineTheorems.FanOutByCounting | notify/dispatcher.go:132-241 | On a steady directory: one row per listed group, eligible member and channel, one per deliverable destination, nothing else |
| EngineTheorems.SlotSafety | notify/dispatcher.go:51-63 | Slots in use equal the goroutines holding one, never exceed the configured bound, 16 when it is not positive, and are all back when the goroutines are gone |
| EngineTheorems.StepLifecycle | notify/dispatcher.go:92-130 | A step moves the status only from pending to processing to a verdict, skipping processing only after a failed statement |
| EngineTheorems.RunLifecycle | notify/dispatcher.go:233-241 | Over any run the status only moves forward, and after the verdict neither the status nor any delivery row of the job changes or is added |
| EngineTheorems.QueueSound | api/handlers.go:268-297 | An id is queued at most once, a waiting id names an existing pending row without deliveries that no worker holds, the queue respects its capacity, and no two workers hold one job |
| EngineQueue.EnqueueExact | api/handlers.go:290-297 | In every reachable state, sending a fresh job always can happen, queues it last if fewer than queueCapacity ids wait and drops it otherwise, and changes nothing else |
| EngineQueue.DroppedIffFull | api/handlers.go:290-297 | Over every run: a job is dropped if and only if its send met queueCapacity waiting ids, and is queued if and only if its send met fewer |
| EngineQueue.ServedInOrder | notify/dispatcher.go:77-90 | Jobs start in the order they were queued |
| EngineQueue.IdleWorkerTakesIff | notify/dispatcher.go:77-90 | A worker at rest can take a job if and only if one waits |
| EngineQueue.EntersIff | notify/dispatcher.go:153-158 | A goroutine waiting for the semaphore can enter if and only if fewer goroutines than the bound hold a slot |
| EngineQueue.WorkerWaitsOnlyToJoin | notify/dispatcher.go:132-233 | A worker with items left never waits, and with none left waits for exactly its own job's goroutines |
| EngineQueue.MalformedFails | notify/dispatcher.go:102-130 | A job whose columns do not parse writes no row, launches nothing, and ends failed unless a statement fails |
| EngineTheorems.NoRowAfterVerdict | notify/dispatcher.go:232-241 | Once the verdict is written every goroutine of the job is gone |
| EngineTheorems.RunCalls | notify/dispatcher.go:284-289 | The calls a goroutine is recorded to have made are the provider's answers to it in the run |
| EngineTheorems.RowsRecordTheirCalls | notify/dispatcher.go:274-320 | In every interleaving, each row was written for a withheld item of the plan or by one goroutine that wrote no other; a retried row's status, message id, error and attempt count are those of the provider calls that goroutine made in the run, all but the last failed, and no call came after; a faultless finished job's failed rows carry the last error |
| EngineTheorems.RowsFollowThePlan | notify/dispatcher.go:141-231 | End to end, at any time and whatever failed: each row is for a listed member's eligible channel or a listed deliverable destination, and records "not_subscribed" for a recipient that may not be texted, one attempt for e-mail, and otherwise the provider calls made for it in the run |
| EngineTheorems.StepsFollowDeliver | notify/dispatcher.go:274-308 | In the whole system, a goroutine holding a slot can take exactly the calls of Retry.Deliver, and then holds the row Deliver returns, or none where Deliver gives up |
| EngineProgress.SystemWorkFalls | notify/dispatcher.go:77-250 | A ranking function over queue, jobs, goroutines and workers falls with every action of the dispatcher |
| EngineProgress.DispatcherRunsEnd | notify/dispatcher.go:77-250 | From any reachable state the dispatcher, left alone, takes no more steps than that rank |
| EngineProgress.StuckOnlyWhenSettled | notify/dispatcher.go:153-232 | While providers answer, a reachable state has no next step if and only if nothing is held, nothing runs, and nothing waits for a free worker |
| EngineProgress.EveryJobEnds | notify/dispatcher.go:77-90 | In a state without next step, with one worker still serving, every id ever queued was processed to the end and every slot is free |
| EngineProgress.OwnWorkFalls | notify/dispatcher.go:77-250 | A rank of one queued job that no action of anyone raises, publishing included, falls with every action on the job |
| EngineProgress.JobTakesBoundedSteps | notify/dispatcher.go:77-250 | So one job takes no more actions than its rank, whatever is published or runs meanwhile |
| EngineProgress.HeldJobHasNextStep | notify/dispatcher.go:153-232 | A job a worker holds always has a next action, its own or that of a goroutine holding a slot |
| Poller.Deliveries.CheckDelivery | notify/poller.go:112-185 | In place, each branch of a check (no message id, failed fetch, final status, still in flight) leaves the table of `Poller.Checked`, also when statements fail |
| Poller.CheckDecides | notify/poller.go:112-213 | What that table holds for the row, per answer: a reported final status with its note and the clock, the counter unchanged; nothing new for a status in flight; "malformed" with its text without a message id; after a failed fetch one attempt more, and at a positive limit "poll_failed" with that reason |
| Poller.FailedCheckKeeps | notify/poller.go:112-213 | A check whose first statement fails changes nothing; one whose give-up mark fails keeps the row with one attempt more |
| Poller.Vocabulary | db/queries.sql:124-139 | The statuses polled and the final ones, channel by channel, listed in full |
| Poller.Deliveries.RecordPollFailure | notify/poller.go:191-213 | A failure is counted once and the row is given up exactly when its new count reaches a positive limit |
| Poller.PassDecidesEachRow | notify/poller.go:98-100 | A whole pass over a snapshot decides each listed row exactly once, by its own answer alone, whatever happens to the others, and leaves every other row as it was |
| Poller.CheckTouchesOneRow | db/queries.sql:143-161 | A check, whichever of its statements fail, adds and removes no row and changes only its own, never the channel or message id, in a way that depends on that row alone |
| Poller.EndsPollingIsNotInFlight | notify/poller.go:227-241 | No terminal status, and neither of the poller's own two statuses, is selected by an in-flight query of any channel |
| PollerSystem.StepAbsorbs | notify/poller.go:57-185 | No statement of any participant changes a settled row's status or completion time or returns a row to flight |
| PollerSystem.TerminalAbsorption | notify/poller.go:57-185 | The same over every run of inserts, the periodic poll and the startup re-check, together with the invariant on the snapshots they hold |
| PollerSystem.SettledAsReported | notify/poller.go:112-185 | Over every run: a row that was polled at the start and has settled carries a final status that a check of the run was told for it, completed when that check wrote it, or "malformed" because it has no message id |
| PollerSystem.EveryListedRowIsChecked | notify/poller.go:57-101 | No row is skipped: whatever row a poller's query finds has been checked when that poller rests again, whatever else runs, unless the second of its opening statements failed |
| PollerSystem.PollersNeverShareARow | notify/poller.go:57-101 | The two poller goroutines never hold the same row, in any state of any run |
| PollerSystem.PollBudget | notify/poller.go:191-213 | A row's counter exceeds the limit by at most its own failed give-up marks; a row in flight is at or over the limit if and only if its mark is the next statement or one has failed, and over it if and only if a counted failure followed a failed mark, the concurrent bulk reset notwithstanding |
| PollerSystem.OverTheLimitExample | notify/poller.go:202-213 | A run with limit 1 in which a failed mark lets a row be counted to 2 |
| PollerSystem.RunCounts | notify/poller.go:191-213 | While a row is in flight its counter grows by exactly its own counted failures |
| PollerSystem.FailuresAreBounded | notify/poller.go:191-213 | So a row leaves the in-flight set after at most limit failed polls, plus one for each of its marks that failed |
| PollerSystem.CheckDeliveryRefines | notify/poller.go:112-213 | An undisturbed check is the check step followed, exactly when the budget is used up, by the mark step |
| AuthCache.ServeKeys | ldap/cache.go:45-102 | A successful request brings its key to the front and drops only the last key, and only when a new key meets a full cache, whether it hits, finds an expired entry or misses |
| AuthCache.LruRefinement | ldap/cache.go:45-102 | After any trace of requests whose inner calls succeed, whatever the expiries, the keys are the first maxSize distinct keys of the trace read backwards, in that order |
| AuthCache.LargerCacheContainsSmaller | ldap/cache.go:45-102 | On one trace a larger cache keeps every key a smaller one keeps, as a prefix of its list, even with another TTL |
| AuthCache.HitIff | ldap/cache.go:45-102 | After any trace of requests whose inner calls succeed, a request is answered from the cache if and only if the last store of its key is at most ttl old and fewer than maxSize other keys were requested since the key was, and then with that store's result |
| AuthCache.GetExact | ldap/cache.go:58-74 | A lookup answers if and only if an entry of its key is stored and not past its time, wherever it stands, with that entry's result, and removes nothing but an entry past its time |
| AuthCache.PutExact | ldap/cache.go:76-102 | After a store the entries are the new one, expiring ttl from now, and the old ones of other keys, without the last of them if the cache was full and the key new |
| AuthCache.GetKeepsBounded | ldap/cache.go:58-74 | A lookup keeps keys distinct and the size within maxSize |
| AuthCache.PutKeepsBounded | ldap/cache.go:76-102 | A store keeps keys distinct and the size within maxSize, and its key is present afterwards |
| RecencyList.List.PushFront | ldap/cache.go:100 | On a doubly linked list of heap nodes: the new node comes first and all links stay consistent |
| RecencyList.List.Unlink | ldap/cache.go:68 | Exactly one node leaves the list, at either end or in the middle |
| RecencyList.List.MoveToFront | ldap/cache.go:72 | The node comes first and the others keep their order |
| CachedAuthenticator.Cache.constructor | ldap/cache.go:36-42 | A new cache is empty and its index and list agree |
| CachedAuthenticator.Cache.ContentsBounded | ldap/cache.go:18-25 | While index and list agree, no key is stored twice and the list is within maxSize |
| CachedAuthenticator.Cache.CacheGet | ldap/cache.go:58-74 | The in-place lookup keeps index and list in bijection, answers if and only if an entry of the key is stored and not past its time, and refines the lookup on values in the list it leaves |
| CachedAuthenticator.Cache.CachePut | ldap/cache.go:76-102 | The same for refresh, eviction and insertion |
| CachedAuthenticator.Cache.AuthenticateUser | ldap/cache.go:45-56 | A stored entry not past its time answers, and nothing else does; otherwise the inner call's result is returned; a failed inner call stores nothing, a successful one is stored |
| AuthCacheShared.TextsCollideIff | ldap/cache.go:106-112 | Two usernames can give the same hashed text if and only if one followed by ':' is a prefix of the other |
| AuthCacheShared.CollisionExample | ldap/cache.go:106-112 | User a with password b:c and user a:b with password c give the same text |
| AuthCacheShared.TextDeterminesCredential | ldap/cache.go:106-112 | For usernames without ':' the hashed text determines username and password |
| AuthCacheShared.CacheSoundness | ldap/cache.go:45-102 | In every interleaving of callers a returned result is that of the caller's own inner call in the run, or of an inner call in the run, made for the same key by some caller, that was stored at most ttl before the hit; and every stored entry comes from a success for its key, so failures are never stored |
| AuthCacheShared.RunRecords | ldap/cache.go:50-55 | Every success the model's history holds is an inner call of the run, made by the caller recorded with it and for that caller's credential |
| AuthCacheShared.LookupStepIff | ldap/cache.go:58-74 | In every interleaving a caller's lookup returns the cached result if and only if an entry of its key is stored at that moment and not past its time |
| AuthCacheShared.StoreStepKeeps | ldap/cache.go:76-102 | In every interleaving a stored result answers lookups right after its store for exactly ttl |
| AuthCacheShared.OnlyOwnCredentials | ldap/cache.go:45-112 | With a collision-free hash and usernames without ':', every returned result is that of an inner call in the run made for the caller's own username and password |
| Recipient.ParseRecipient | smtpapi/parse.go:27-58 | The parsing loop returns the specified group, channels or error |
| Recipient.ParseYieldsNormalForm | smtpapi/parse.go:27-58 | Every successful parse yields a non-empty trimmed group and distinct, trimmed, lowercase, non-empty channels without '+' |
| Recipient.ChannelsAreFirstOccurrences | smtpapi/parse.go:44-54 | The channels kept are the first occurrences, in order, of the normalised non-empty fields |
| Recipient.ParsedByParts | smtpapi/parse.go:27-58 | A successful parse returns the trimmed first field before the last '@' as the group and the first occurrences of the named channels after it, and the domain matches up to case |
| RecipientParts.AcceptedIff | smtpapi/parse.go:27-58 | By the parts of an address (white space, brackets, local part, last '@', domain): it is accepted if and only if the domain differs from the expected one in case only and something other than white space stands before the first '+', which is then the group up to white space; each error has its exact condition |
| RecipientParts.HasParts | smtpapi/parse.go:29-37 | Every address with an '@' has such parts |
| RecipientParts.MissingDomainIff | smtpapi/parse.go:33-36 | An address is refused for its missing domain if and only if it has no '@' |
| RecipientParts.CaseOfDomainIsIrrelevant | smtpapi/parse.go:29-40 | The answer is the same for two addresses with one local part whose domains differ in case only, whatever brackets and white space surround them, and does not change with the case of the expected domain |
| RecipientParts.TrimExact | smtpapi/parse.go:29 | Trimming takes off white space at both ends and nothing else |
| Recipient.RoundTripIff | smtpapi/parse.go:27-58 | Parsing a printed well-formed recipient gives it back if and only if its group does not start with an angle bracket and the domain has no '@' and ends in neither white space nor an angle bracket |
| Recipient.ParsePrintParse | smtpapi/parse.go:27-58 | Print then parse is the identity on parsed recipients under exactly that condition |
| Recipient.DoubleBracketExample | smtpapi/parse.go:29-31 | The condition is needed: an address with two opening brackets parses to a group the next parse changes |
| Recipient.ResolveTargets | smtpapi/parse.go:73-86 | It succeeds if and only if there is a fallback or every recipient has channels; recipients keep their order and own channels; otherwise the first one without channels is named |
| SmtpSession.Connection.FinishAuthentication | smtpapi/session.go:117-130 | Only a granted publish permission changes the session |
| SmtpSession.Connection.Authenticate | smtpapi/session.go:89-112 | A refused or failed log-in leaves the session as it was |
| SmtpSession.Connection.Rcpt | smtpapi/session.go:143-168 | A recipient is added exactly when the session is authenticated, the address parses, and all its channels are known |
| SmtpSession.Connection.Data | smtpapi/session.go:173-328 | Every rejection comes before any write, with its reply code; otherwise the event is written first |
| SmtpSession.Connection.Commit | smtpapi/session.go:277-328 | In place, the loop stops at the first failed insert or full queue, leaving the rows and jobs whose contents `SmtpSession.DataAccounting` states |
| SmtpSession.Connection.Reset | smtpapi/session.go:332-334 | Recipients are cleared and the authentication is kept |
| SmtpSession.DataAccounting | smtpapi/session.go:173-328 | Either nothing is written, or one event, named by the subject, and notifications of which the queued jobs are a prefix at most one short; the i-th notification has the id generated for it, the whole body, and the i-th recipient's group and channels; the loop stops exactly at the first recipient whose insert fails or whose job finds no room; on success every recipient has its notification and its job |
| SmtpSession.DataReply | smtpapi/session.go:173-328 | Every reply to a message has its exact condition, over the parts of the message and the answers of database and queue |
| SmtpSession.PrecheckIff | smtpapi/session.go:173-253 | A message passes the checks before the first write if and only if the session is logged in, the message and its From header parse, all channels are known, there is a recipient and a body, and every recipient has a channel |
| SmtpSession.LoginAndRcptReplies | smtpapi/session.go:89-168 | The replies to a log-in and to a recipient, each with its exact condition |
| SmtpSession.SessionSafety | smtpapi/session.go:117-334 | Over any command sequence recipients exist only after a log-in that granted publish, each with a non-empty group and valid channels; the session acts as the last such user; every queued job names a written notification of a written event |
| SmtpSession.SessionIs | smtpapi/session.go:117-334 | Over any command sequence the session is exactly the user of the last log-in that granted publish and the recipients accepted since the last reset |
| SmtpSession.RowsCarryTheirMessage | smtpapi/session.go:173-328 | Over any command sequence every notification written carries the whole body of a message of the run, sent by the user logged in then to a recipient accepted before it, and belongs to an event named by that message's subject |
| GroupSync.Syncer.SyncGroup | ldap/sync.go:118-165 | The group is replaced and success reported if and only if every statement succeeds and no username is repeated; otherwise the table is as before |
| GroupSync.Syncer.CleanupGroups | ldap/sync.go:170-192 | Exactly the rows of unconfigured groups whose delete succeeds disappear |
| GroupSync.Syncer.SyncOnce | ldap/sync.go:56-114 | A cycle leaves the specified table, counts exactly the groups that failed, and totals the members of the others |
| GroupSync.SyncExact | ldap/sync.go:118-165 | A synchronised group's rows are exactly LDAP's named members, each column holding its own attribute or NULL where that is empty; a failed one's are untouched, and other groups are untouched either way |
| GroupSync.AnyFailureLeavesAll | ldap/sync.go:118-165 | A failed search or statement, or a username listed twice, leaves the whole table as it was |
| GroupSync.CycleExact | ldap/sync.go:56-192 | After a cycle each configured group has LDAP's members or its old rows, decided by its own answers alone; an unconfigured group has none once its delete succeeds, even when connecting fails |
| GroupSync.RepeatChangesOnlyStamps | ldap/sync.go:56-165 | A repeated cycle with the same answers changes nothing but the synchronisation times |
| GroupSync.CyclesKeepClean | ldap/sync.go:147-155 | Whatever LDAP lists and whatever fails, no contact column of any table the syncer leaves holds an empty string |
| GroupSync.RowsComeFromLdap | ldap/sync.go:56-165 | After any cycles from an empty table every row stands for an entry that a successful synchronisation of its group listed, column by column |
| GroupSync.FailuresCounted | ldap/sync.go:88-106 | The error count of a cycle is the number of groups that failed |
| GroupSync.MembersCounted | ldap/sync.go:88-106 | The member total of a cycle is the number of entries listed for the groups that succeeded |
| GroupSync.CountIsRowsStoredIff | ldap/sync.go:136-164 | The member count reported for a group is the number of rows stored for it if and only if LDAP listed no blank username |
| GroupSync.BlankMemberExample | ldap/sync.go:136-164 | One nameless entry: one member reported, no row stored |
| TimeText.BeforeIsEarlier | api/handlers.go:365 | Comparing calendar dates and clock times field by field agrees with comparing seconds |
| TimeText.OrderPreserved | api/handlers.go:201 | For the years 0 to 9999, comparing the strings byte by byte agrees with comparing the instants |
| TimeText.OrderAgreesIff | api/handlers.go:201 | For all instants, before year 0 included, comparing the strings agrees with comparing the instants if and only if the years compare: from year 0 on, equally many digits or leading digits of the longer one at least the shorter one; with opposite signs always; before year 0, the same year, or differently many digits of which the leading ones are below the shorter year's |
| TimeText.FormatInjective | api/handlers.go:365 | No two instants have the same text |
| TimeText.FiveDigitYears | api/handlers.go:201 | So a five-digit year is misordered against a four-digit one if and only if its first four digits are below it |
| TimeText.EpochIs1970 | api/handlers.go:368-369 | Plain epoch seconds count from the first second of 1970 |
| TimeText.Year10000Accepted | api/handlers.go:368-370 | The epoch-seconds input 253402300800 is accepted and denotes the first instant of year 10000 |
| TimeText.Year10000Misorders | api/handlers.go:201 | The text of that instant compares below that of every date of the years 1001 to 9999, all of them earlier |
| TimeText.YearMinusOneAccepted | api/handlers.go:368-370 | The epoch-seconds input -62198755200 is accepted and denotes the first second of year -1 |
| TimeText.YearMinusTwoAccepted | api/handlers.go:368-370 | The epoch-seconds input -62198755201 is accepted and denotes the last second of year -2 |
| TimeText.YearsBeforeZeroMisorder | api/handlers.go:201 | The text of the later of these two compares below that of the earlier |
| TimeText.FormatReadsBackIff | api/handlers.go:352-372 | A formatted instant reads back as itself if and only if its year is one of 0 to 9999 |
| TimeText.NormaliseIdempotent | api/handlers.go:352-372 | Normalising an accepted input whose year is one of 0 to 9999 twice is normalising it once, and never gives the empty string |
| TimeText.NormalFormFixed | api/handlers.go:352-372 | A string already in normal form is returned unchanged |
| Events.StoredTimesAreInstants | api/handlers.go:352-372 | Whatever callers send, signed epochs included, every start and end any run stores is the text of an instant |
| Events.EventStore.EndEvent | api/resources.go:465-518 | An open event gets its end exactly when the time is accepted, its text is not below the start's if supplied, and the update succeeds |
| Events.EventStore.PublishEvent | api/handlers.go:153-223 | The event part of a publish request is a creation when the id is new, followed by an end when one is supplied |
| Events.PublishEndsIff | api/handlers.go:194-223 | In instants: a publish with an end time for an open event sets exactly that end, if and only if it is not before the start where the two years compare (and is before it where they do not) |
| Events.PublishCreatesAndEnds | api/handlers.go:153-223 | In instants: for a new id the event starts at the instant the request means, and ends at the one it names under the same condition |
| Events.PublishOnlyCreates | api/handlers.go:194-200 | Without an accepted end time, or for an event already ended, a publish does no more than create |
| Events.CreateExact | api/handlers.go:160-192 | A new event starts at the instant the request means (the clock if it gives none), open and with its details; a rejected time, a failed insert or an id in use changes nothing |
| Events.UpdateExact | api/resources.go:276-306 | An update replaces exactly the given fields of exactly that event |
| Events.UpdatesCommute | api/resources.go:276-304 | An update commutes with ends, supplied or not, and with sweeps, so it never decides whether or when an event ends |
| Events.UpdatesCompose | api/resources.go:276-304 | Two updates in a row are one in which each field's last given value survives |
| Events.EventStore.Sweep | notify/sweeper.go:55-83 | Exactly the due open events are closed, and each gets exactly one audit attempt |
| Events.EventStore.AuditClosed | notify/sweeper.go:72-83 | The audit loop attempts each returned id once, whatever the order |
| Events.StepKeeps | api/resources.go:479-518 | Every handler keeps the agreement of the Go and SQL tests for an open event, and never moves a start or touches a set end |
| Events.EndIsSetOnce | api/resources.go:479-518 | Over any run of handlers an end time, once set, never changes and is never the empty string |
| Events.AutoClosedMeansSwept | db/queries.sql:49-57 | An event marked auto-closed was ended by a sweep of the run, at that sweep's time, having reached its cutoff |
| Events.SweepExact | notify/sweeper.go:55-64 | In instants: a sweep closes an event if and only if it is open and started at or before the cutoff's second, where the two years compare; where they do not, if and only if it is open and started after the cutoff; a second sweep at that cutoff closes none |
| Events.SweptBeforeStartIff | notify/sweeper.go:55-64 | In instants, with a TTL covering the gap between the clock readings: an open event that has not started is closed, before its start, if and only if its year does not compare with the cutoff's |
| Events.SweepEndsNotBeforeStartIff | notify/sweeper.go:56-64 | In instants: among the starts whose year compares with the cutoff's, every end a sweep can write is at or after the start if and only if its first clock reading, in whole seconds, is not before its cutoff; a TTL covering the gap between the two readings suffices |
| Events.CallerEndBeforeStartIff | api/handlers.go:195-204 | In instants: a supplied end is accepted if and only if it is not before the start, where the two years compare; so an accepted end is before the start if and only if they do not |
| Events.Year10000EndExample | api/resources.go:497-505 | An event of year 10000 accepts an end in 2024 |
| Events.Year10000SweepExample | notify/sweeper.go:55-64 | A sweep of 2024 closes an event of year 10000 |
| Events.ClockEndBeforeStartIff | api/resources.go:486-505 | In instants: ended at the server's clock, an event ends before it starts if and only if it was announced for later than now |
| Events.EarlyEndExample | api/resources.go:486-505 | Ended at the server's clock in 2024, an event announced for the next second ends before it starts, and its texts show it |
| Events.EndsFollowStarts | api/resources.go:479-518 | In instants, over a whole run in which explicit ends are supplied and sweeps stamp no earlier than their cutoff: an ended event ends at or after its start if and only if the two years compare, hence always for the years 0 to 9999 |
| Uuid.StampFields | notify/twilio.go:24-37 | The in-place writes leave the specified layout over the random bytes |
| Uuid.UuidV7 | notify/twilio.go:18-46 | The text returned is the printed layout |
| Uuid.TimeReadsBackIff | notify/twilio.go:24-46 | The text read back gives the low 48 bits of the clock, hence the clock itself if and only if it fits |
| Uuid.TimeOrdersText | notify/twilio.go:24-46 | A smaller time always gives a lexicographically smaller text, whatever the random bytes |
| Uuid.EqualIff | notify/twilio.go:18-46 | Two identifiers are equal if and only if their clocks agree in the low 48 bits and their random bytes in the 74 bits outside version and variant |
| Uuid.Shape | notify/twilio.go:34-46 | 36 characters, hyphens exactly at 8, 13, 18 and 23, version 7, variant bits 10 |
| UiSessions.LoginLasts | api/ui_session.go:45-71 | A session just created answers its user to a first lookup within eight hours, whatever other requests and sweeps run in between, and not after that |
| UiSessions.LookupExtends | api/ui_session.go:56-71 | A lookup that is answered gives the session eight hours from that moment, whatever runs in between, and no longer |
| UiSessions.SessionStore.GetUser | api/ui_session.go:58-71 | A live session answers and slides, an expired one is removed |
| UiSessions.LogoutIsFinal | api/ui_session.go:73-77 | Once deleted, a session stays gone and every lookup of it answers none, whatever runs afterwards, unless its token is issued again |
| UiSessions.SessionStore.SweepExpired | api/ui_session.go:88-95 | The loop removes exactly the sessions expired at its reading and leaves the others as they were |
| UiSessions.SweepsAreInvisible | api/ui_session.go:45-98 | Whatever sweeps run wherever, every lookup answers as a table of last touches that never deletes expired entries answers on the same run without sweeps |
| UiSessions.SweepPlacementIsIrrelevant | api/ui_session.go:80-98 | Two runs that differ only in their sweeps give the same answers |
| EmailVars.WalkPathIsFold | notify/dispatcher.go:776-791 | A path is found if and only if indexing by its dot-separated pieces, one after the other, never fails |
| EmailVars.WalkPathIsNonNilIff | notify/dispatcher.go:773-791 | It agrees with "exists and is non-nil" if and only if the path does not lead to a null |
| EmailVars.NullPathExample | notify/dispatcher.go:776-781 | With the variables {"a": null}, the path a is found |
| EmailVars.MergeEmailVars | notify/dispatcher.go:744-771 | The copying loop gives the user's variables with the two reserved keys overwritten |
| EmailVars.MergeSeparates | notify/dispatcher.go:744-791 | Paths under a reserved key do not depend on the user's variables, and all other paths depend on nothing else |
| EmailVars.MergeLeads | notify/dispatcher.go:754-791 | "notification." and "event." before a path lead where the path leads in the notification's and in the event's own data |
| EmailVars.MergeLeavesUser | notify/dispatcher.go:744-791 | Every other path leads where it leads in the user's variables |
| EmailVars.ContextPaths | notify/dispatcher.go:754-769 | Whatever the user supplied, each key of the two reserved objects leads to its own column of the notification or the event, and any other key to nothing |
| EmailVars.DispatchEmail | notify/dispatcher.go:383-504 | One row of attempt 1; the mail server is called once if and only if every check passes; the row says "sent" if and only if that call succeeds, and otherwise gives the first check that failed, naming the first required variable that is missing, or the server's error |
| SubjectVars.SubjectSurvivesIff | smtpapi/session.go:274 | The subject pasted into the e-mail variables decodes back to itself if and only if it contains no quote, backslash or control character |
| SubjectVars.PlainSubject | smtpapi/session.go:274 | Then the deliveries get exactly the variable "subject" with that subject |
| SubjectVars.QuoteFailsDeliveries | notify/dispatcher.go:428-432 | A subject whose first special character is a quote, with neither a comma nor the end of the object after it, makes every e-mail delivery of the message fail before the mail server is called |
| SubjectVars.QuotedSubjectExample | notify/dispatcher.go:428-432 | The subject Disk "a" full is one |

The retry loop is the same in `dispatchVoice` and the two destination forms
(`notify/dispatcher.go:323-381`, `506-559`, `561-614`), the e-mail path in
`dispatchEmailToDestination` (`616-727`); the queueing step of `EngineQueue.EnqueueExact` is the same
in `smtpapi/session.go:287-316` and `api/subscribe.go:288-304`, and the identifier layout in
`api/handlers.go:327-343`.

## Left out

- Retry.Deliver: the provider and the cancellation signal are functions of the call's number; that a wait really lasts as long as its delay is not modelled.
- FanOut.FanOutMember: in the source this is the innermost loop body of one function, a method of its own here.
- FanOut.FanOutGroup: likewise the loop over one group's members.
- FanOut.ChannelSet: likewise the first loop.
- Retry.Deliver: its loop is a method of its own, `Retry.RunLoop`.
- Recipient.ParseRecipient: the loop over the channel fields is a method of its own, as is the check of channel names in the SMTP session.
- Events.EventStore.EndEvent: reading a supplied time, or else the clock, is a method of its own, shared with creation, as is the comparison and update that follow, and the bulk update of a sweep.
- EngineTheorems.FanOutByCounting: assumes that the member table is steady while the job runs; `EngineTheorems.FanOutByListing` does not.
- EngineProofs.StepKeepsInv: a job's plan (whether its JSON parses, and every answer its queries will give) is one arbitrary value attached when the notification is published, rather than read query by query.
- EngineProofs.StepKeepsInv: one process only; a restart with jobs still queued in memory is not modelled. Neither are the error texts on notification rows and the audit log.
- PollerSystem.PollBudget: one process run, with a positive limit; with no limit nothing is given up.
- Poller.Deliveries.CheckDelivery: fetching and decoding the provider's JSON is an answer, failed or read.
- AuthCacheShared.OnlyOwnCredentials: SHA-256 is an arbitrary function; collision-freeness is assumed in this lemma alone.
- CachedAuthenticator.Cache.constructor: a size of zero or less, for which the source returns the wrapped authenticator itself, gives no cache object.
- AuthCache.LruRefinement: requests whose inner call fails are not part of the trace; they are covered by `AuthCacheShared.CacheSoundness`.
- Recipient.ParseYieldsNormalForm: Unicode's case tables are parameters, of which four elementary facts are assumed (`Recipient.Sane`); input that is not valid UTF-8 is not modelled.
- SmtpSession.Connection.Data: header and MIME parsing are an arbitrary presented message; the enhanced status codes and the audit rows are not modelled.
- SmtpSession.Connection.Authenticate: the LOGIN and CRAM exchanges are reduced to their outcome.
- GroupSync.CycleExact: uses the uniqueness of configured group names, which the schema imposes.
- GroupSync.CyclesKeepClean: the table starts empty or clean; rows written by hand are not considered.
- TimeText.NormaliseIdempotent: besides the normal form and epoch seconds of at most 18 digits with an optional sign, the accepted layouts, and longer epochs (whose 64-bit seconds may wrap around), are one arbitrary function from text to instants of any sign; fractions of a second are cut off before that.
- Events.EndIsSetOnce: each handler is one step; the update statement has no NULL guard, so nothing is claimed for two handlers interleaving between read and write.
- Events.UpdatesCommute: the severity vocabulary and the modification columns are not modelled.
- Events.EventStore.Sweep: an audit record is an attempt, whether or not its insert succeeds.
- Uuid.UuidV7: the random bytes are a parameter; the bit masks are written as arithmetic on bytes.
- SubjectVars.QuoteFailsDeliveries: a JSON object that goes on after a comma, and the `\u` escapes, decode by arbitrary functions.
- UiSessions.SessionStore.SweepExpired: the ticker and cancellation around the loop are not modelled.
- EmailVars.DispatchEmail: template rendering is an answer; loading the event and the template may each fail; the notification's groups are one opaque value of the template data.
- AuthCache.HitIff: the count of other keys starts at the key's last request, answered or not, because an answered one refreshes its entry's place; it does not start at the last store.
- HTTP handlers and pages around these operations, JSON encoding, role tables, configuration checks, the command-line client, cryptography, logging and log rotation: thin wrappers or lookups.
- SQLite, its migrations and the generated query code: a statement has the meaning written in `db/queries.sql`.
