# Verified models of the marketplace's stateful protocols

Dafny models of the client-side connection and session machines and of the server-side stores, caches, parsers and
orders of this marketplace, with proofs of what they promise. `dafny verify dfyconfig.toml` checks everything.

Most modules have the same shape. A file such as `ChatProtocol.dfy` or `Messaging.dfy` gives the protocol as a state, a
set of events and a step function; one event is the code between two `await`s, or one database statement, and a run is any
sequence of events the code allows, so overlapping calls interleave freely. Invariants and theorems over all runs come
next. A second file, such as `ChatService.dfy` or `MessagingService.dfy`, has the classes and loops as the source writes
them, and its contracts tie every method to the step function, and state its result outright where the step
function alone would leave it open; the objects of the two
clients carry the run that led to their state, so that the theorems speak about the object between any two handlers.
What the source gets from outside (clocks, fresh identities, failures of the network or the database) is a parameter of
the event.

| part | files |
|---|---|
| chat connection manager | `ChatProtocol`, `ChatInvariants`, `ChatTheorems`, `ChatReconnecting`, `ChatService` |
| session state in browser tabs | `AuthProtocol`, `AuthTheorems`, `AuthChecks`, `AuthController` |
| session revocation | `SessionRevocation`, `UserStore`, `TokenBlacklist` |
| conversations and messages | `Messaging`, `MessagingService`, `RecentChats` |
| Google sign-in and identity links | `GoogleSignIn`, `GoogleLinking`, `GoogleReturning`, `GoogleSignInService` |
| verification challenges | `ChallengeStore` |
| search cache and post services | `SearchKeys`, `SearchCache`, `SearchRaces` |
| listing texts | `Text`, `LikePattern`, `FullText`, `FullTextMeaning`, `ImageList` |
| orders and pages | `Ordering`, `SearchRanking`, `SearchScores`, `Paging` |
| comments, hygiene job, two-level cache | `Comments`, `DataHygiene`, `HygieneCleanups`, `HygieneService`, `HybridCache` |

## Where the code does less than one would expect

Each of these is a lemma, with the exact condition or a run that shows it.

- Revocation is permanent exactly when each write that replaces the invalidation time of an already invalidated token, or
  that blocks the account, saves a time later than the token's, unless it leaves the account deleted
  (`RevocationLastsExactly`, `WriteLastsExactly`). A writer that read the row before a ban and saves after it puts its
  own, earlier stamp in place of the ban's (`OverlappingWriteRevives`, `LateStampRevives`).
- An upsert of a challenge can return without having stored anything: when a delete falls between its failed insert and
  its second update, or when the row belongs to a deleted user, whom the query filter hides from updates but not from
  the unique index (`DisturbedUpsertStoresNothing`, `HiddenUpsertStoresNothing`; exactly then by `FinishedMeansStored`).
- Two sign-ins that both find the account of a Google subject deleted can remove each other's new link, so that one
  succeeds with a user the store no longer maps the subject to (`SecondRemovalUnmapsASuccess`); this can happen exactly
  when the subject is linked to a deleted account (`SuccessesAreMappedExactly`).
- Two overlapping comments of one user can pass the rate limit together (`OverlappingAddsExceed`); the limit is exceeded
  by at most as many comments as overlap one add (`AtMostFiveAMinute`, `LimitIsKeptExactly`).
- A sign-in that is sent twice can lose one of its calls: when the other links the subject to the same account between
  its two searches, it fails although the link it wants is there (`SameAccountLoserFails`). Exactly the calls whose
  subject is linked already are safe from that in every run (`LinkingIsSafeExactly`, `LostExactly`).
- A search that is overtaken by a save and its invalidation caches the old listing for its 30 seconds
  (`OvertakenStaysStale`). So does one that registers its key while an invalidation is under way, whose clearing of the
  registry then loses the key (`LostRegistrationStaysStale`). These are the two ways, by `FreshExactly`.
- Cache keys are exact for queries without `|` in their texts; with it, different listings can collide (`BarsCollide`),
  which ones is `CollidesExactly`.
- Merging comma-separated images restores the list exactly under the condition of `MergeIsExact`.
- Chat pages whose offset leaves 32 bits repeat recent messages or are refused (`WrappedPageIsExact`,
  `LargePageRepeatsMessages`); listing pages clamp their offset and are right as long as there are fewer than 2^31 rows
  (`ClampedOffsetIsExact`). A listing page past the end reports a total of none (`TotalIsReportedOnRealPages`).
- A value removed on one node can still be read on another for up to five minutes, and as much longer as a get waited
  before it filled its level (`RemovedValueIsStillRead`); such a late fill can also hide a newer value that the same node
  has set (`LateFillHidesSet`).
- A ranked search drops a post with a word of the query in it exactly when the query asks for something cheap, not also
  for something fine, the post costs more than 10000, all that it earns is ten points for one word in its seller's
  name, and its age, views, pictures, description and phone sum up to minus two or less (`MatchesAreRankedExactly`).
- The comment in the blacklist service that purging only bounds the table's size holds for tokens with one expiry; with
  two it does not (`PurgeMattersForChangedExpiry`, `PurgesMatterExactly`).
- Audit entries are reported as due for the archive, and no code archives them (`AuditRowsAreNeverRemoved`).

## Model

| member | source | states |
|---|---|---|
| `ChatTheorems.OneTransitionAtATime` | apps/web/src/services/chatService.ts:175-180 | In every run at most one connect or disconnect body is in progress, and bodies settle in the order they were called. |
| `ChatTheorems.HeldConnectionIsCurrentUsers` | apps/web/src/services/chatService.ts:189-307 | In every run `connection` is null exactly when `currentUserId` is, the held connection was made for that user, and every other connection ever made is closed, failed to start, or detached with its stop requested. |
| `ChatTheorems.RequestedIsLastRequest` | apps/web/src/services/chatService.ts:166-173 | In every run `requestedUserId` is the user of the last connect or disconnect call. |
| `ChatTheorems.OutputsBelongToLastRequest` | apps/web/src/services/chatService.ts:233-275 | From any reachable state, whatever an event lets out (a delivery to a listener, a realtime send, a REST send, a scheduled reconnect) belongs to the user of the last call, on the connection held for that user. |
| `ChatTheorems.DrainedAfterDisconnect` | apps/web/src/services/chatService.ts:310-341 | When the queue is drained and the last call was a disconnect there is no connection, no user and no armed timer. |
| `ChatTheorems.NothingReconnectsAfterDisconnect` | apps/web/src/services/chatService.ts:310-323 | From a disconnect until the next connect call no connection is ever opened and no timer is live. |
| `ChatTheorems.NoTimerWhenNobodyRequested` | apps/web/src/services/chatService.ts:310-317 | In every run, while nobody is requested no reconnect timer is armed. |
| `ChatTheorems.DrainedAfterConnect` | apps/web/src/services/chatService.ts:182-307 | After connect(u) with no failure, loss or further call, the drained queue leaves a connection of u, u as current user, and `intentionalDisconnect` false, however earlier transitions interleave. |
| `ChatTheorems.UnderwaySince` | apps/web/src/services/chatService.ts:217-291 | Under the same conditions, at every moment on the way the last transition is still to open u's connection or has opened it. |
| `ChatTheorems.EarlierStepKeepsUnderway` | apps/web/src/services/chatService.ts:199-215 | A step of an earlier transition leaves the last one waiting and does not take its target away. |
| `ChatTheorems.BackoffIsExact` | apps/web/src/services/chatService.ts:489-501 | Between successful starts the scheduled delays are 1, 2, 4, 8, 16 seconds, in this order, one for each attempt counted. |
| `ChatTheorems.TotalDelayBounded` | apps/web/src/services/chatService.ts:489-498 | At most five reconnects and 31 seconds of delay are scheduled between successful starts. |
| `ChatTheorems.InternalEventsUseEffort` | apps/web/src/services/chatService.ts:481-513 | Every step the service takes by itself short of a successful start uses up a natural-number measure. |
| `ChatTheorems.ReconnectingEnds` | apps/web/src/services/chatService.ts:481-513 | Without calls and successful starts the number of such steps is bounded by the measure at the start: the service cannot reconnect for ever. |
| `ChatTheorems.QueueIsNeverStuck` | apps/web/src/services/chatService.ts:175-180 | In every reachable state in which the queue is not drained, some transition may begin, or resume after its stop or start. |
| `ChatReconnecting.TimerQueuesConnect` | apps/web/src/services/chatService.ts:501-507 | In every reachable state a live timer is for the user of the last call, whom nothing disconnects, and firing it appends exactly one pending connect of that user to the end of the chain, marked as awaited by the timer; nothing else changes but the timer. |
| `ChatReconnecting.LossArmsTimerExactly` | apps/web/src/services/chatService.ts:277-289 | Losing the held connection arms one timer for its user exactly when that is the user of the last call, no disconnect is intended and fewer than five attempts were made; otherwise no timer is live. |
| `ChatReconnecting.RetryArmsTimerExactly` | apps/web/src/services/chatService.ts:481-513 | So does the catch block of a failed reconnect, for the user who was connected last. |
| `ChatReconnecting.ReconnectedAfterLoss` | apps/web/src/services/chatService.ts:277-289 | The held connection is lost with attempts left: when the timer this armed has fired, with no call since the loss and no failure or loss since the firing, the drained queue leaves that user connected again, however transitions interleave. |
| `ChatReconnecting.DrainedAfterTimer` | apps/web/src/services/chatService.ts:501-507 | Once any reconnect timer has fired, with no call, failure or loss after it, the drained queue leaves the user of the last call connected. |
| `ChatReconnecting.LossReconnects` | apps/web/src/services/chatService.ts:277-308 | From every state with a drained queue, a held connection and attempts left, the loss, the timer, its connect and its start may follow one another, and connect the user again. |
| `ChatReconnecting.LiveConnectionIsKept` | apps/web/src/services/chatService.ts:188-208 | A live connection of the requested user is kept, and no other is opened, over every run of repeated connects of that user, reconnect timers, superseded transitions and sends. |
| `ChatReconnecting.FailedReconnectsAreRetried` | apps/web/src/services/chatService.ts:509-512 | In every run each reconnect that failed is retried once: failed reconnects are as many as retries run and retries due. |
| `ChatReconnecting.StepOwesRetry` | apps/web/src/services/chatService.ts:501-512 | A transition fails exactly when its stop or its start fails, and leaves a retry to run exactly if a timer awaits it. |
| `ChatReconnecting.SendsExactly` | apps/web/src/services/chatService.ts:361-387 | A send goes out over the open connection of the user of the last call, over REST while that user is current without an open connection, and else not at all. |
| `ChatReconnecting.FallsBackExactly` | apps/web/src/services/chatService.ts:392-409 | A failed invocation falls back to REST exactly while its user is the current one and that of the last call. |
| `ChatReconnecting.DeliversExactly` | apps/web/src/services/chatService.ts:233-275 | Listeners hear an event exactly when it comes over the held connection and that is of the user of the last call. |
| `ChatReconnecting.LossIsAnnounced` | apps/web/src/services/chatService.ts:277-289 | A loss is announced exactly for the held connection, and a reconnect with it exactly when a timer is armed. |
| `ChatInvariants.EventKeepsInv` | apps/web/src/services/chatService.ts:160-341 | Each event, in any order the promise chain allows, keeps the invariant: chained transitions, no leaked connection, one identity, one timer for the requested user, convergence to the last request, sends by the current user only. |
| `ChatInvariants.RunKeepsInv` | apps/web/src/services/chatService.ts:160-514 | The invariant holds after every run from the initial state. |
| `ChatInvariants.BeginKeepsInv` | apps/web/src/services/chatService.ts:183-231 | Beginning a transition body keeps the invariant in each of its branches. |
| `ChatInvariants.CloseKeepsInv` | apps/web/src/services/chatService.ts:277-289 | A close event of any connection keeps the invariant. |
| `ChatInvariants.StartDoneKeepsInv` | apps/web/src/services/chatService.ts:293-307 | Success and failure of a start keep the invariant, also when the request has changed meanwhile. |
| `ChatInvariants.TimerKeepsInv` | apps/web/src/services/chatService.ts:501-513 | A firing timer keeps the invariant. |
| `ChatServiceObject.ChatService.Connect` | apps/web/src/services/chatService.ts:160-180 | A non-positive id is refused and changes nothing; else the requested user is the new one at once, one connect of that user is queued behind the chain, a timer for anyone else is gone, and connection, users and counters wait for the queue. The run goes on with the call. |
| `ChatServiceObject.ChatService.Disconnect` | apps/web/src/services/chatService.ts:310-323 | Nobody is requested, the disconnect is intended and no timer is live at once; one disconnect is queued, and the connection waits for it. The run goes on with the call. |
| `ChatServiceObject.ChatService.ConnectInternal` | apps/web/src/services/chatService.ts:182-231 | The body of connect up to its first await gives the state after the begin event of that transition. |
| `ChatServiceObject.ChatService.BeginTransition` | apps/web/src/services/chatService.ts:175-180 | A superseded connect, or one of a user who is connected already, only settles; else a held connection is detached, told to stop and given up, with its user and timers; without one the requested user's is opened, or a disconnect settles. |
| `ChatServiceObject.ChatService.DisconnectInternal` | apps/web/src/services/chatService.ts:325-337 | The body of disconnect up to its await gives the state after the begin event. |
| `ChatServiceObject.ChatService.AfterStop` | apps/web/src/services/chatService.ts:209-231 | A failed stop rejects the transition and leaves a retry to a timer that awaits it; after a stop a connect opens its connection if its user is still requested, and a disconnect settles without a user. |
| `ChatServiceObject.ChatService.AfterStart` | apps/web/src/services/chatService.ts:293-307 | A start settles the transition and resets the attempts if its user is still requested; a failed one rejects it, gives its connection up if that is held, and leaves a retry to a timer that awaits it. |
| `ChatServiceObject.ChatService.OnClose` | apps/web/src/services/chatService.ts:277-289 | Only the held connection is given up with its user, and a timer is armed for that user exactly when it is the requested one, no disconnect is intended and fewer than five attempts were made; any other closed connection changes nothing else. |
| `ChatServiceObject.ChatService.ScheduleTimer` | apps/web/src/services/chatService.ts:481-501 | Gives the state after scheduling a reconnect, or leaves it as it is under the three guards. |
| `ChatServiceObject.ChatService.OnTimer` | apps/web/src/services/chatService.ts:501-507 | A timer that fires is for the user of the last call and no disconnect is intended: exactly one connect of that user is queued at the end of the chain, no timer is left, and nothing else changes. |
| `ChatServiceObject.ChatService.OnReconnectFailed` | apps/web/src/services/chatService.ts:509-512 | Uses up one retry and arms a timer for the user of the last call exactly when that user was connected last, no disconnect is intended and fewer than five attempts were made. |
| `ChatServiceObject.ChatService.OnRealtimeEvent` | apps/web/src/services/chatService.ts:233-275 | Delivers exactly on the connection that is held, attached and the requested user's; so whatever is delivered belongs to the user of the last call. |
| `ChatServiceObject.ChatService.SendMessage` | apps/web/src/services/chatService.ts:361-387 | Refuses an invalid receiver and an empty text without any change; else sends exactly when the current user is the requested one, who is the user of the last call: over the held connection if that is open, else by REST. |
| `ChatServiceObject.ChatService.AfterInvoke` | apps/web/src/services/chatService.ts:392-409 | After a failed invocation falls back to REST exactly when its user is still the current and requested one, who is the user of the last call. |
| `ChatServiceObject.ChatService.Holds` | apps/web/src/services/chatService.ts:160-514 | Between any two handlers: a connection exactly when there is a current user, and it is theirs; all others let go; at most one live timer, for the user of the last call; and after a drained disconnect no connection, user or timer. |
| `AuthTheorems.SessionStateIsConsistent` | apps/web/src/contexts/useAuthProviderController.ts:89-160 | In every page and every interleaving of page loads, checks, logouts, sign-ins, guest mode and storage events: authenticated exactly when there is a user, never also a guest, and not authenticated under a set logout flag once the flag's storage event is handled. |
| `AuthTheorems.SingleTabLogoutFlag` | apps/web/src/contexts/useAuthProviderController.ts:298-305 | With one page at a time, through any reloads and returns, a set logout flag alone implies not authenticated. |
| `AuthTheorems.StaleCheckIsInert` | apps/web/src/contexts/useAuthProviderController.ts:340-342 | The answer of a check that is not the latest run changes neither storage nor the state of any tab. |
| `AuthTheorems.RunIdGrowsOverRuns` | apps/web/src/contexts/useAuthProviderController.ts:275-276 | Run ids never go back over a run. |
| `AuthTheorems.CheckBegunBeforeLogoutIsInert` | apps/web/src/contexts/useAuthProviderController.ts:490-497 | The answer of a check begun before a logout changes nothing after it, whatever happened in between. |
| `AuthTheorems.LogoutSticks` | apps/web/src/contexts/useAuthProviderController.ts:490-503 | After a logout at a moment when no tab has a Google redirect still to handle, the flag stays set and the tab stays signed out through every check, storage event and logout of any tab, until somebody signs in, returns from Google, enters guest mode or drops the flag otherwise. |
| `AuthTheorems.EventKeepsInv` | apps/web/src/contexts/useAuthEventSync.ts:26-46 | Every event of any page, and every page load, keeps the invariant: under a set flag a page that is or may become authenticated still has the flag's event to come. |
| `AuthTheorems.RunKeepsInv` | apps/web/src/contexts/useAuthEventSync.ts:26-46 | The invariant holds after every run. |
| `AuthTheorems.StartCheckKeeps` | apps/web/src/contexts/useAuthProviderController.ts:274-329 | Starting a check keeps it; under a set flag and without a redirect marker the tab ends signed out with no live check. |
| `AuthTheorems.FinishCheckKeeps` | apps/web/src/contexts/useAuthProviderController.ts:344-419 | Finishing the latest check keeps it in each outcome of the probe. |
| `AuthTheorems.LogoutKeeps` | apps/web/src/contexts/useAuthProviderController.ts:490-497 | Logout sets the flag, leaves no live check and signs out. |
| `AuthChecks.CheckIsExact` | apps/web/src/contexts/useAuthProviderController.ts:274-330 | A check begins exactly one new run, with the guest mode read from the storage, and leaves the storage alone, exactly when after the redirect step no logout flag is set and a session is shown or hinted at; else it ends as a guest, or signed out with every auth key cleared. |
| `AuthChecks.SessionIsRestored` | apps/web/src/contexts/useAuthProviderController.ts:309-382 | A page that checks its session while a hint is stored and no logout flag is set, or that returns from Google, stays to be answered over every run in which nothing of its own supersedes that check; and when the server answers it with a user, it is signed in as that user, and the hint is stored. |
| `AuthChecks.CheckStaysDue` | apps/web/src/contexts/useAuthProviderController.ts:274-342 | Such a check stays to be answered whatever other pages do, until its own page begins another, logs out, enters guest mode or gets the last answer. |
| `AuthChecks.FinishIsExact` | apps/web/src/contexts/useAuthProviderController.ts:344-419 | The last answer of the latest check: success signs in and is stored; without it guest mode goes on; a refusal signs out and clears the storage; a network error leaves a signed-in page and every stored key as they were. |
| `AuthChecks.ChangesAreHeard` | apps/web/src/contexts/useAuthEventSync.ts:26-46 | Whatever a page changes in the storage, every other page has a storage event of that key to come. |
| `AuthChecks.ClearIsExact` | apps/web/src/contexts/useAuthProviderController.ts:62-87 | Clearing removes exactly the seven auth keys. |
| `AuthControllerObject.AuthController.CheckAuth` | apps/web/src/contexts/useAuthProviderController.ts:274-329 | One new run with the guest mode read from the storage, which stays as it is, exactly when after the redirect step no logout flag is set and a session is shown or hinted at; otherwise a guest, or signed out without any auth key. The run of all tabs goes on with the check. |
| `AuthControllerObject.AuthController.OnProbe` | apps/web/src/contexts/useAuthProviderController.ts:331-342 | A first network error is asked again; a stale answer changes neither storage nor session; else success signs in and is stored, a refusal signs out or leaves a guest, and a second network error leaves a signed-in page and the storage alone. |
| `AuthControllerObject.AuthController.ApplyProbe` | apps/web/src/contexts/useAuthProviderController.ts:344-419 | The state and storage after the latest check ends, in each outcome. |
| `AuthControllerObject.AuthController.SetSession` | apps/web/src/contexts/useAuthProviderController.ts:145-160 | Signs the user in; of the storage exactly the guest and logout keys are gone and the two hints are written. |
| `AuthControllerObject.AuthController.LogOut` | apps/web/src/contexts/useAuthProviderController.ts:490-497 | The flag is set and every auth key gone, the tab is signed out and not loading, and every check begun before is stale. |
| `AuthControllerObject.AuthController.LoginAsGuest` | apps/web/src/contexts/useAuthProviderController.ts:505-506 | Changes nothing but the run id and the pending call before its await. |
| `AuthControllerObject.AuthController.EnterGuestMode` | apps/web/src/contexts/useAuthProviderController.ts:511-521 | A guest and signed out; of the storage exactly the auth keys and the logout flag are gone and the guest key is written; `loading` as it was. |
| `AuthControllerObject.AuthController.OnStorageEvent` | apps/web/src/contexts/useAuthEventSync.ts:27-41 | An auth key starts a check, with the exact effect of one; the favourites key changes nothing. |
| `AuthControllerObject.AuthController.AbortSignIn` | apps/web/src/contexts/useAuthProviderController.ts:231-272 | A sign-in that the server then rejects signs out, clears exactly the auth keys and keeps the logout flag as it was. |
| `AuthControllerObject.AuthController.OnOtherTab` | apps/web/src/contexts/useAuthEventSync.ts:26-46 | What another tab does changes the storage and queues the keys it wrote here, and nothing else; the run of all tabs goes on. |
| `AuthControllerObject.AuthController.Holds` | apps/web/src/contexts/useAuthProviderController.ts:89-160 | Between any handlers of any tabs: authenticated exactly when there is a user, never also a guest, and under a set logout flag without its event to come signed out with only stale checks. |
| `AuthControllerObject.AuthController.ClearStorage` | apps/web/src/contexts/useAuthProviderController.ts:62-87 | Removes exactly the auth keys and keeps the logout flag. |
| `SessionRevocation.RevocationIsPermanent` | apps/api/src/Infrastructure/Services/DatabaseTokenBlacklistService.cs:113-133 | A token issued to an acceptable account and ever rejected stays rejected at every later time, through any later bans, unbans, suspensions, expiries, updates, deletions and invalidations, overlapping or not, if each write meets the condition of `Lasts`: a save that replaces the invalidation time of an invalidated token, or blocks the account, carries a stamp later than the token. |
| `SessionRevocation.RevocationLastsExactly` | apps/api/src/Infrastructure/Services/DatabaseTokenBlacklistService.cs:113-133 | For every run and token: once rejected it is never let in again by lifting the blocks of its account, exactly when every write of the run met that condition. |
| `SessionRevocation.SequentialRevocationIsPermanent` | apps/api/src/Infrastructure/DataAccess/UserDataAccessAdapter.cs:94-132 | With writers one at a time under a strictly increasing clock, revocation is permanent. |
| `SessionRevocation.OneAtATimeIsStampedAfter` | apps/api/src/Infrastructure/DataAccess/UserDataAccessAdapter.cs:108-119 | Writers one at a time meet the stamping condition for every user. |
| `SessionRevocation.RunKeepsDecided` | apps/api/src/Infrastructure/DataAccess/AdminDataAccessAdapter.cs:260-277 | Over a run whose writes meet the condition a token is either dead for good or let in by the account, and dead stays dead. |
| `SessionRevocation.WriteLastsExactly` | apps/api/src/Infrastructure/DataAccess/UserDataAccessAdapter.cs:108-188 | For each kind of write, from a current or a stale row: it meets the condition exactly when it keeps a decided token decided and a dead one dead. |
| `SessionRevocation.LateStampRevives` | apps/api/src/Infrastructure/DataAccess/AdminDataAccessAdapter.cs:936-965 | After a ban and its lifting a token is accepted again exactly when the ban was stamped no later than the token was issued. |
| `SessionRevocation.OverlappingWriteRevives` | apps/api/src/Infrastructure/DataAccess/UserDataAccessAdapter.cs:108-124 | Two overlapping writers break permanence: an e-mail change that read the row before a ban and saves after it replaces the ban's stamp, and after the ban is lifted the token is accepted exactly when it was issued at or after the e-mail change was stamped. |
| `SessionRevocation.ClaimPrecedence` | apps/api/src/Api/Startup/TokenBlacklistMiddleware.cs:77-112 | The tick claim decides whenever it is a valid time; the second claim is used only without it and keeps its value; none exactly when neither is a date. |
| `SessionRevocation.WholeSecondsNeverAcceptMore` | apps/api/src/Api/Startup/TokenBlacklistMiddleware.cs:82-104 | The issue time from whole seconds is less than a second earlier than the one from ticks, so it is rejected wherever the tick time is. |
| `SessionRevocation.SecurityChangeEndsSessions` | apps/api/src/Infrastructure/DataAccess/UserDataAccessAdapter.cs:94-188 | An update of the row as it is: if the stored password hash, e-mail beyond case, status, role, deletion, second factor, its secret or suspension is different afterwards, every session from before it ends; if none is, every token stands as before. |
| `SessionRevocation.AcceptedExactly` | apps/api/src/Infrastructure/Services/DatabaseTokenBlacklistService.cs:113-133 | A token is accepted exactly by an account that is there, undeleted, active and not suspended at that time, if it was issued no earlier than the invalidation time. |
| `UserStoreObject.HarmlessMask` | apps/api/src/Infrastructure/DataAccess/UserDataAccessAdapter.cs:134-188 | A masked update without a security field changes no security state and no invalidation time, and leaves every token's standing alone. |
| `UserStoreObject.UserEntity.ApplyUserUpdateFields` | apps/api/src/Infrastructure/DataAccess/UserDataAccessAdapter.cs:134-188 | Assigning field by field, exactly the masked fields (a blank password excepted) take the new values; true exactly when password hash, e-mail beyond case, status, role, deletion, second factor, its secret or suspension is then different. |
| `UserStoreObject.UserEntity.ApplyDeletionState` | apps/api/src/Infrastructure/DataAccess/UserDataAccessAdapter.cs:266-271 | Marks the row deleted and stamps it, nothing else. |
| `UserStoreObject.UserEntity.ApplySuspensionState` | apps/api/src/Infrastructure/DataAccess/AdminDataAccessAdapter.cs:951-965 | A timed suspension makes the account active until then; without a time it is banned. |
| `UserStoreObject.UserTable.UpdateUserFieldsAsync` | apps/api/src/Infrastructure/DataAccess/UserDataAccessAdapter.cs:94-132 | Exactly the masked columns take the new values. If password hash, e-mail beyond case, status, role, deletion, second factor, its secret or suspension is then different, every token issued before is rejected at every time, and else the invalidation time is the old one; false and unchanged without user, actor or fields, for a deleted user, or when the save fails. |
| `UserStoreObject.UserTable.SuspendUserAsync` | apps/api/src/Infrastructure/DataAccess/AdminDataAccessAdapter.cs:936-949 | Exactly this account is suspended until then, or banned: tokens from before are rejected at every time, later ones exactly until the suspension is over, by a banned account always; false for an unknown user. |
| `UserStoreObject.UserTable.DeleteUserAsync` | apps/api/src/Infrastructure/DataAccess/UserDataAccessAdapter.cs:190-264 | The user and exactly the user's posts and favourites are deleted, and every token is rejected; false and nothing changed for a missing or deleted user or a failed save. |
| `UserStoreObject.UserTable.BulkUpdateUserStatusAsync` | apps/api/src/Infrastructure/DataAccess/AdminDataAccessAdapter.cs:251-277 | More than 500 ids are refused unchanged; otherwise every named, undeleted user has the status and no suspension, with earlier sessions ended exactly when the status is new and not the active one; all others are unchanged, and the count is theirs. |
| `UserStoreObject.UserTable.UpdatePasswordHashForCredentialRehashAsync` | apps/api/src/Infrastructure/DataAccess/UserDataAccessAdapter.cs:67-92 | Replaces the password hash exactly if the expected one is stored, and leaves every token's standing alone. |
| `UserStoreObject.UserTable.InvalidateAllUserSessionsAsync` | apps/api/src/Infrastructure/Services/DatabaseTokenBlacklistService.cs:77-87 | Every token issued before is rejected from now on; nothing else changes, and nothing for a missing or deleted user. |
| `TokenBlacklist.PurgingIsInvisible` | apps/api/src/Infrastructure/Services/DatabaseTokenBlacklistService.cs:47-75 | At any time no purge has passed, a token with one expiry is blacklisted exactly when it was added and has not expired, whatever purges ran. |
| `TokenBlacklist.PurgeMattersForChangedExpiry` | apps/api/src/Infrastructure/Services/DatabaseTokenBlacklistService.cs:25-37 | With two expiries it differs: adding an expired token again with a later expiry works only after a purge. |
| `TokenBlacklist.PurgesMatterExactly` | apps/api/src/Infrastructure/Services/DatabaseTokenBlacklistService.cs:18-75 | For every sequence of adds and past purges: purging changes the answer for a token exactly when the token was added before, had been purged, and was added again with an expiry after now; it is then blacklisted only thanks to the purge. |
| `TokenBlacklist.BlacklistedTokens.AddToBlacklist` | apps/api/src/Infrastructure/Services/DatabaseTokenBlacklistService.cs:18-39 | Blank and listed tokens change nothing; others are added with their expiry. |
| `TokenBlacklist.BlacklistedTokens.PurgeExpired` | apps/api/src/Infrastructure/Services/DatabaseTokenBlacklistService.cs:63-75 | Removes exactly the expired entries and counts them. |
| `LikePattern.PassesAreOneEscape` | apps/api/src/Infrastructure/Queries/PostListingQueryService.cs:374-381 | For every text the four ordered replacements equal one backslash before each of backslash, percent, underscore and bracket. |
| `LikePattern.PrefixPatternIsExact` | apps/api/src/Infrastructure/Queries/PostListingQueryService.cs:368-372 | For every term and upper-casing, the built pattern matches exactly the strings that start with the trimmed, upper-cased term. |
| `LikePattern.EscapedPrefixMatch` | apps/api/src/Infrastructure/Queries/PostListingQueryService.cs:374-381 | An escaped term followed by percent matches exactly the strings that start with the term. |
| `FullText.BuildFullTextSearchCondition` | apps/api/src/Infrastructure/Queries/PostListingQueryService.cs:415-455 | The loop with its set of words seen and its early end computes the condition: the first eight different sanitized words of two letters or more, quoted as prefixes and joined by AND. |
| `FullText.TrimIsInvisible` | apps/api/src/Infrastructure/Queries/PostListingQueryService.cs:415-441 | A search term and the trimmed term have the same full-text condition. |
| `FullText.ArgumentsComeFromListing` | apps/api/src/Infrastructure/Queries/PostListingQueryService.cs:41-93 | Everything the listing query makes of its texts (prefix patterns, full-text condition, category) is the same for the texts as they came and for the trimmed ones. |
| `FullTextMeaning.MeetsExactly` | apps/api/src/Infrastructure/Queries/PostListingQueryService.cs:415-441 | Read back from its text, a condition is met by a row exactly if for each word it asks for one of the row's words begins with it; there is none exactly if the search has no word. |
| `FullTextMeaning.TokensExactly` | apps/api/src/Infrastructure/Queries/PostListingQueryService.cs:415-441 | The words asked for are words of the search, two letters or digits or more between blanks, each once: all of them if they are less than eight, else the first eight. |
| `FullTextMeaning.SanitizedExactly` | apps/api/src/Infrastructure/Queries/PostListingQueryService.cs:443-455 | A word is the letters and digits of its piece, each in upper case. |
| `ImageList.ParseLegacyCommaDelimitedImages` | apps/api/src/Infrastructure/Queries/PostListingQueryService.cs:325-366 | The loop computes the merged segments, step by step. |
| `ImageList.ParseAggregatedImageUrls` | apps/api/src/Infrastructure/Queries/PostListingQueryService.cs:293-323 | The parser computes the distinct trimmed segments of whichever format the payload has. |
| `ImageList.SeparatedListRoundTrip` | apps/api/src/Infrastructure/Queries/PostListingQueryService.cs:300-302 | Two or more clean URLs joined by U+001F parse back to the list with later duplicates dropped. |
| `ImageList.MergeIsExact` | apps/api/src/Infrastructure/Queries/PostListingQueryService.cs:334-363 | For all well-formed comma lists: merging restores the images exactly when no data payload begins like a URL and whatever follows a comma-free URL that looks like a split data prefix does. |
| `ImageList.CommaListRoundTrip` | apps/api/src/Infrastructure/Queries/PostListingQueryService.cs:325-366 | Unambiguous images joined by commas parse back with later duplicates dropped. |
| `ImageList.CommaConditionsAreExact` | apps/api/src/Infrastructure/Queries/PostListingQueryService.cs:342-359 | For two segments, exactly when the parser joins them and exactly when it keeps them apart. |
| `Text.DropLaterMeaning` | apps/api/src/Infrastructure/Queries/PostListingQueryService.cs:304-320 | Dropping duplicates keeps the same texts, each once, in the order of their first appearance. |
| `Text.TrimTakesBlanks` | apps/api/src/Infrastructure/Queries/PostListingQueryService.cs:368-372 | Trimming takes white space off the two ends and nothing else. |
| `ImageList.MergeStep` | apps/api/src/Infrastructure/Queries/PostListingQueryService.cs:334-363 | What one turn of the merging loop takes and makes. |
| `Messaging.MessagesStayBetweenParticipants` | apps/api/src/Application/Services/ChatOrchestrationService.cs:151-265 | In every reachable state the sender and receiver of a message are the two distinct participants of its conversation. |
| `Messaging.RacingCallsShareTheConversation` | apps/api/src/Infrastructure/DataAccess/ConversationDataAccessAdapter.cs:29-47 | Two calls between the same users about the same post, from either side and however they race, work in one conversation. |
| `Messaging.HistoryIsKept` | apps/api/src/Infrastructure/DataAccess/MessageDataAccessAdapter.cs:206-239 | Over every run nothing is removed, no message is re-addressed, and what is read stays read. |
| `Messaging.MessageGoesThrough` | apps/api/src/Application/Services/ChatOrchestrationService.cs:196-265 | However calls interleave, a message to somebody else, or into a named conversation of the sender to the other participant, is sent after its own remaining steps, while no conversation is deleted and no foreign key fails; losing the insert race costs only a second search. |
| `Messaging.CallsEnd` | apps/api/src/Application/Services/ChatOrchestrationService.cs:151-265 | Each step of a sending call brings it nearer its end. |
| `Messaging.MarkingBetweenIsMarkingEach` | apps/api/src/Infrastructure/DataAccess/MessageDataAccessAdapter.cs:206-239 | Marking between two users equals marking each of their undeleted conversations for the reader, in any order. |
| `Messaging.MarkingTouchesNothingElse` | apps/api/src/Infrastructure/DataAccess/MessageDataAccessAdapter.cs:217-239 | It changes exactly the unread, undeleted messages the other sent to the reader in undeleted conversations. |
| `Messaging.EventKeepsInv` | apps/api/src/Application/Services/ChatOrchestrationService.cs:167-265 | Each step of any call, each marking and each soft deletion keeps ordered pairs, one conversation for each pair and post, addressed messages and calls that fit the store. |
| `Messaging.RunKeepsInv` | apps/api/src/Application/Services/ChatOrchestrationService.cs:151-265 | The invariant holds after every run. |
| `Messaging.InsertedKeeps` | apps/api/src/Infrastructure/DataAccess/ConversationDataAccessAdapter.cs:29-47 | An insert under the unique constraint keeps one conversation for each pair and post. |
| `Messaging.ContinueFits` | apps/api/src/Application/Services/ChatOrchestrationService.cs:182-229 | The receiver a call resolves is the other participant of the conversation it goes on with. |
| `MessagingServiceObject.MessageService.FindConversationId` | apps/api/src/Infrastructure/DataAccess/ConversationDataAccessAdapter.cs:16-27 | Finds an undeleted row of the thread, and none only if there is none. |
| `MessagingServiceObject.MessageService.CreateConversation` | apps/api/src/Infrastructure/DataAccess/ConversationDataAccessAdapter.cs:29-47 | Inserts exactly one row, or when its keys fail or the thread is taken finds an undeleted row of it; as a run of the machine. |
| `MessagingServiceObject.MessageService.GetOrCreateConversationId` | apps/api/src/Application/Services/MessageService.cs:19-36 | Refuses impossible pairs unchanged; else the undeleted conversation of the thread, a new one, or none exactly when a deleted one is in the way or the keys fail; as a run of the machine. |
| `MessagingServiceObject.MessageService.IsUserInConversation` | apps/api/src/Infrastructure/DataAccess/ConversationDataAccessAdapter.cs:49-62 | True exactly for a participant of an undeleted conversation. |
| `MessagingServiceObject.MessageService.AddMessage` | apps/api/src/Infrastructure/DataAccess/MessageDataAccessAdapter.cs:15-35 | Adds exactly this message under a fresh identity, or nothing when the row is refused. |
| `MessagingServiceObject.MessageService.Save` | apps/api/src/Application/Services/MessageService.cs:92-117 | A participant's message is added, unread and under a fresh identity, unless its keys fail; anyone else's is refused; as a run of the machine to its end. |
| `MessagingServiceObject.MessageService.SendInConversation` | apps/api/src/Application/Services/ChatOrchestrationService.cs:182-216 | Ends sent exactly when the conversation is visible, the sender takes part, the receiver wanted is absent or the other participant, and no key fails; then exactly one new unread message goes to the other participant there. Otherwise nothing changes, with the failure of the first check that applies. |
| `MessagingServiceObject.MessageService.SendToReceiver` | apps/api/src/Application/Services/ChatOrchestrationService.cs:217-246 | The message goes into the undeleted conversation of the two about the post, or into a new one; it fails without a change exactly when a deleted one is in the way or the pair's keys fail, and after opening the conversation only when the message's own keys fail. |
| `MessagingServiceObject.MessageService.SendMessage` | apps/api/src/Application/Services/ChatOrchestrationService.cs:151-265 | A conversation named comes before a receiver named, with the exact result of either; without both, to oneself, or with unacceptable content nothing is sent. A run of the machine that leaves the two tables consistent. |
| `MessagingServiceObject.MessageService.MarkMessagesAsRead` | apps/api/src/Infrastructure/DataAccess/MessageDataAccessAdapter.cs:206-215 | Afterwards nothing in the conversation is unread for the reader; only read flags of messages there that others sent change; true exactly when something changed. |
| `MessagingServiceObject.MessageService.MarkMessagesAsReadBetweenUsers` | apps/api/src/Infrastructure/DataAccess/MessageDataAccessAdapter.cs:217-239 | Exactly the undeleted messages that the other user sent to this one, in whichever of their undeleted conversations, become read, everything else is as before; true exactly when something changed. |
| `RecentChats.RecentIsNewestOfEach` | apps/api/src/Infrastructure/DataAccess/MessageDataAccessAdapter.cs:129-172 | The inbox holds exactly the newest undeleted message of each undeleted, non-empty conversation of the user, by time and then identity, each conversation once and the newest first. |
| `RecentChats.FirstIsGreatest` | apps/api/src/Infrastructure/DataAccess/MessageDataAccessAdapter.cs:151-159 | Row number one is the greatest row of its conversation. |
| `RecentChats.GetRecentChats` | apps/api/src/Infrastructure/DataAccess/MessageDataAccessAdapter.cs:125-201 | Computes that inbox. |
| `ChallengeStore.OneRowPerUserAndType` | apps/api/src/Infrastructure/DataAccess/VerificationChallengeDataAccessAdapter.cs:22-117 | In every interleaving there is at most one row for each user and type. |
| `ChallengeStore.ReplaceIsCompareAndSwap` | apps/api/src/Infrastructure/DataAccess/VerificationChallengeDataAccessAdapter.cs:61-94 | A replacement succeeds exactly when the stored state is the expected one, or none is stored and none expected; then it stores the new state and touches no other row, otherwise it changes nothing. |
| `ChallengeStore.DeleteIsCompareAndDelete` | apps/api/src/Infrastructure/DataAccess/VerificationChallengeDataAccessAdapter.cs:103-117 | A conditional delete succeeds exactly when the stored state is the expected one, then leaves no row of the key, otherwise it changes nothing. |
| `ChallengeStore.AtMostOneWinnerPerWrite` | apps/api/src/Infrastructure/DataAccess/VerificationChallengeDataAccessAdapter.cs:70-117 | In every interleaving callers presenting the same expected state succeed at most once for each time that state was really stored: at the start, by a replacement that succeeded, or by an upsert statement that wrote. |
| `ChallengeStore.UndisturbedUpsertWrites` | apps/api/src/Infrastructure/DataAccess/VerificationChallengeDataAccessAdapter.cs:22-59 | An upsert whose user is not deleted, and whose row nobody deletes between its failed insert and its second update, never finishes without having written. |
| `ChallengeStore.FinishedMeansStored` | apps/api/src/Infrastructure/DataAccess/VerificationChallengeDataAccessAdapter.cs:24-58 | A statement that ends an upsert stores exactly its state in exactly its row, or changes nothing; as the second update it stores exactly when the user is not deleted and the row is there, and otherwise always. |
| `ChallengeStore.DisturbedUpsertStoresNothing` | apps/api/src/Infrastructure/DataAccess/VerificationChallengeDataAccessAdapter.cs:47-58 | From every store without the row: an upsert that loses its insert and whose row is deleted before its second update ends without having stored anything. |
| `ChallengeStore.HiddenUpsertStoresNothing` | apps/api/src/Infrastructure/DataAccess/VerificationChallengeDataAccessAdapter.cs:24-58 | From every store with a row of a deleted user: an uninterrupted upsert for it ends without having stored anything. |
| `ChallengeStore.WinUsesStateUp` | apps/api/src/Infrastructure/DataAccess/VerificationChallengeDataAccessAdapter.cs:70-117 | A success uses the expected state up: it takes a real write of it to have it again. |
| `ChallengeStore.VerificationChallengeAdapter.GetChallengeState` | apps/api/src/Infrastructure/DataAccess/VerificationChallengeDataAccessAdapter.cs:12-20 | Returns exactly the stored state of a visible row. |
| `ChallengeStore.VerificationChallengeAdapter.UpsertChallengeState` | apps/api/src/Infrastructure/DataAccess/VerificationChallengeDataAccessAdapter.cs:22-59 | Uninterrupted, stores its state whatever was there, unless a deleted user's row is in the way; other rows are unchanged. |
| `ChallengeStore.VerificationChallengeAdapter.TryReplaceChallengeState` | apps/api/src/Infrastructure/DataAccess/VerificationChallengeDataAccessAdapter.cs:61-94 | Is the compare-and-swap step. |
| `ChallengeStore.VerificationChallengeAdapter.DeleteChallengeState` | apps/api/src/Infrastructure/DataAccess/VerificationChallengeDataAccessAdapter.cs:96-101 | No row of the key is left unless its user is deleted, and no other row changes. |
| `ChallengeStore.VerificationChallengeAdapter.TryDeleteChallengeState` | apps/api/src/Infrastructure/DataAccess/VerificationChallengeDataAccessAdapter.cs:103-117 | Succeeds exactly when the user is not deleted and the expected state is stored; then the row is gone and no other changes, else nothing changes. |
| `ChallengeStore.VerificationChallengeAdapter.Insert` | apps/api/src/Infrastructure/DataAccess/VerificationChallengeDataAccessAdapter.cs:40-51 | Inserts unless the unique index has the key, hidden rows included. |
| `GoogleSignIn.RacingSignInsAgree` | apps/api/src/Application/Services/AuthCommandService.cs:307-487 | If the subject is not linked to a deleted account at the start and no account is deleted meanwhile, all sign-ins with it that succeed, however they race and whichever accounts they set out to link, succeed with one user: the one the store maps the subject to. |
| `GoogleSignIn.SuccessesAreMappedExactly` | apps/api/src/Application/Services/AuthCommandService.cs:307-517 | For every store and subject: in all runs without deletions every success is the user the store then maps the subject to, exactly when the store does not link the subject to a deleted account. |
| `GoogleSignIn.SteadyNeverUnlinks` | apps/api/src/Application/Services/AuthCommandService.cs:333-371 | From such a store no run without deletions ever removes the link of the subject. |
| `GoogleSignIn.LinksStayOneToOne` | apps/api/src/Infrastructure/DataAccess/ExternalIdentityDataAccessAdapter.cs:52-131 | In every interleaving a subject has at most one user and a user at most one subject. |
| `GoogleSignIn.RunKeepsSettled` | apps/api/src/Application/Services/AuthCommandService.cs:464-517 | While the link is not removed, whatever a call has settled on is what the store maps its subject to. |
| `GoogleSignIn.StepSettles` | apps/api/src/Infrastructure/DataAccess/ExternalIdentityDataAccessAdapter.cs:52-158 | Each step that settles a call settles it on the user the store then maps the subject to. |
| `GoogleSignIn.SecondRemovalUnmapsASuccess` | apps/api/src/Application/Services/AuthCommandService.cs:333-371 | From every store that links the subject to a deleted account: a run in which two sign-ins find it so, the second removal hits the link the first has just made, and the first succeeds with a user the store no longer maps the subject to. |
| `GoogleLinking.LinkGoesThrough` | apps/api/src/Infrastructure/DataAccess/ExternalIdentityDataAccessAdapter.cs:51-152 | However sign-ins interleave, a linking call whose account has no link, or whose subject is linked, has after its own remaining steps settled on the user the store maps its subject to, while no account is deleted, no foreign key fails for it and nobody else links that account; it can then only be turned down for the account itself (lockout, status, role). |
| `GoogleLinking.RacingLinksResolve` | apps/api/src/Infrastructure/DataAccess/ExternalIdentityDataAccessAdapter.cs:97-145 | Two sign-ins that race to link one subject to different free accounts both come through after five steps each, and to the same user. |
| `GoogleLinking.SameAccountLoserFails` | apps/api/src/Infrastructure/DataAccess/ExternalIdentityDataAccessAdapter.cs:87-99 | From every state in which two sign-ins set out to link one subject to the same free account there is a run in which one links it between the two searches of the other, which fails although its subject is linked to its account. |
| `GoogleLinking.LostExactly` | apps/api/src/Infrastructure/DataAccess/ExternalIdentityDataAccessAdapter.cs:87-151 | In every run without deletions a linking call fails over its link exactly when its account has a link, of whatever subject, as it looks for one, or its insert was refused and its subject has no link as it looks again. |
| `GoogleLinking.LinkingIsSafeExactly` | apps/api/src/Infrastructure/DataAccess/ExternalIdentityDataAccessAdapter.cs:51-99 | A call that sets out to link its subject comes through in every run, whatever other sign-ins do, exactly when the subject is linked already. |
| `GoogleLinking.LostOnlyToRival` | apps/api/src/Infrastructure/DataAccess/ExternalIdentityDataAccessAdapter.cs:87-151 | A linking call with its own foreign keys in order fails over its link only if the account was linked to another subject from the start, or some other call linked it meanwhile. |
| `GoogleLinking.LinkingIsReady` | apps/api/src/Application/Services/AuthCommandService.cs:374-457 | In every run without deletions from a store that does not link the subject to a deleted account, every call of the subject that sets out to link is as these lemmas take it. |
| `GoogleReturning.ReturningUserSignsInExactly` | apps/api/src/Application/Services/AuthCommandService.cs:323-371 | However sign-ins interleave, while nobody changes the account or removes its link: a call of a subject linked to a visible account has ended after its own three steps, signed in as that account exactly if it is then not locked, active, unsuspended and has a role, and refused otherwise. |
| `GoogleSignInObject.GoogleAuthService.GoogleAuth` | apps/api/src/Application/Services/AuthCommandService.cs:307-462 | A subject linked to a visible account signs in as that account exactly if it is not locked, active, unsuspended and has a role, else fails for the first of these, with the tables unchanged. Any other subject joins the account with its e-mail, or a new one, exactly as the linking allows, and then signs in under the same condition. No account is changed, and no link is lost but the subject's own to an account that is gone; all as a run of the machine. |
| `GoogleSignInObject.GoogleAuthService.SignInAs` | apps/api/src/Application/Services/AuthCommandService.cs:374-394 | Run alone: the user whom the subject is linked to signs in; a subject nobody has is linked, with exactly one row, unless the account has another link or its keys fail. A run of the machine. |
| `GoogleSignInObject.GoogleAuthService.ResolveUserFromLink` | apps/api/src/Application/Services/AuthCommandService.cs:464-517 | Each link status leads to its failure, or to the sign-in of the linked account, which succeeds exactly in good standing. |
| `GoogleSignInObject.GoogleAuthService.SignInLinked` | apps/api/src/Application/Services/AuthCommandService.cs:328-371 | A visible account signs in exactly in good standing, with the tables unchanged; one that is gone loses its link, and the subject goes on as one that nobody has. A run of the machine. |
| `GoogleSignInObject.GoogleAuthService.MatchOrSignUp` | apps/api/src/Application/Services/AuthCommandService.cs:374-461 | The account with the e-mail is linked and signs in; without one a new account is signed up. Exactly which rows are added, and with whom it succeeds; a run of the machine. |
| `GoogleSignInObject.GoogleAuthService.SignUpAndLink` | apps/api/src/Application/Services/AuthCommandService.cs:398-461 | Each outcome of the signup: a new account that is linked and signs in, a refusal, or after a duplicate the active account of the e-mail; no link or account is lost. A run of the machine. |
| `GoogleSignInObject.GoogleAuthService.BuildGoogleSuccessResult` | apps/api/src/Application/Services/AuthCommandService.cs:519-609 | Succeeds exactly for an account not locked, undeleted, active, unsuspended and with a role, and fails for the first reason that applies. |
| `GoogleSignInObject.GoogleAuthService.LinkIdentityToUser` | apps/api/src/Infrastructure/DataAccess/ExternalIdentityDataAccessAdapter.cs:32-158 | Links, with exactly one row, exactly when the subject and the account are free and no key fails; each other status with what it means; and the same end as the machine. |
| `GoogleSignInObject.GoogleAuthService.LinkUnlinkedSubject` | apps/api/src/Infrastructure/DataAccess/ExternalIdentityDataAccessAdapter.cs:97-158 | For a subject nobody has: links exactly when the account has no other link and no key fails, as a run of the machine. |
| `GoogleSignInObject.GoogleAuthService.FindUserIdByProviderSubject` | apps/api/src/Infrastructure/DataAccess/ExternalIdentityDataAccessAdapter.cs:12-30 | Returns exactly the user a non-blank subject is mapped to. |
| `GoogleSignInObject.GoogleAuthService.DeleteIdentityLinkBySubject` | apps/api/src/Infrastructure/DataAccess/ExternalIdentityDataAccessAdapter.cs:160-177 | Removes the link of the subject and no other. |
| `SearchKeys.EqualKeysMeanEqualListings` | apps/api/src/Infrastructure/Queries/SearchReadService.cs:164-188 | A query without '|' in its texts shares its key exactly with the queries that ask for the same listing in the same status words, even against queries that hold a '|'. |
| `SearchKeys.SharedKeys` | apps/api/src/Infrastructure/Queries/SearchReadService.cs:164-188 | Any two queries share a key exactly when page, limit, visibility, order, prices and status words agree and their four free parts, joined, are the same text. |
| `SearchKeys.CollidesExactly` | apps/api/src/Infrastructure/Queries/SearchReadService.cs:164-188 | Exactly which queries share their key with a query for another listing: those whose free texts, joined by '|', can be cut at three bars into other pieces that read as a term, a category and a city. |
| `SearchKeys.BarsCollide` | apps/api/src/Infrastructure/Queries/SearchReadService.cs:174-188 | A family that does collide: a term that ends in '|', without a category, has the key of the term before it in the category named '|'. |
| `SearchKeys.ListingMeaning` | apps/api/src/Infrastructure/Queries/SearchReadService.cs:15-96 | What a query asks for: page and limit as given where they are sensible, else the first page and 20, at most 200; the order and the direction it names; active or sold posts, or all visible ones; a category by number or by name; trimmed texts and the two prices. |
| `SearchCache.SearchesAreUncached` | apps/api/src/Infrastructure/Queries/SearchReadService.cs:77-157 | After any run of searches, creates, updates, status changes, deletes and evictions, a query without '|' is answered as the listing query answers it on the posts as they are. |
| `SearchCache.CachedKeysAreRegistered` | apps/api/src/Infrastructure/Queries/SearchReadService.cs:141-149 | After any run every cached key is in the registry. |
| `SearchCache.RunKeepsCoherent` | apps/api/src/Infrastructure/Queries/SearchReadService.cs:154-162 | The cache stays coherent with the posts over every run. |
| `SearchCache.OnlyAdminsModerate` | apps/api/src/Application/Services/PostStatusTransitionService.cs:72-93 | Over any run without an administrator nobody blocks or unblocks a post, changes an owner, or touches the posts of a user who does not act. |
| `SearchRaces.StaleWindow` | apps/api/src/Infrastructure/Queries/SearchReadService.cs:79-150 | However searches, saves and the sweeps through the registry overlap, a cached answer to a query without '|' is the listing of posts that were current less than 30 seconds ago, or as much longer as its search waited between reading the posts and storing the answer. |
| `SearchRaces.FreshExactly` | apps/api/src/Infrastructure/Queries/SearchReadService.cs:79-162 | Once every save is followed by its whole sweep, a cached answer is of the current posts exactly when the sweep of no later save has missed it: by having come by before the answer was stored, or by beginning while its key was not registered. |
| `SearchRaces.UnmissedIsUncached` | apps/api/src/Infrastructure/Queries/SearchReadService.cs:79-162 | After a run in which no answer is stored too late for the sweep of a later save, and no sweep begins while an older answer is cached under an unregistered key, every cached answer is what the listing query would answer now. |
| `SearchRaces.OvertakenStaysStale` | apps/api/src/Infrastructure/Queries/SearchReadService.cs:142-149 | From every state at rest the window is reached: a search overtaken by a save and its sweep stores the old listing, which is answered for 29 more seconds and not a second longer. |
| `SearchRaces.LostRegistrationStaysStale` | apps/api/src/Infrastructure/Queries/SearchReadService.cs:142-162 | From every state at rest in which the key is not registered: a search that reads, stores and registers during a sweep loses its registration when that clears the registry; the next save's sweep does not find the key, and the answer stays for its 30 seconds although nothing overtook its search. |
| `SearchRaces.StepKeepsInv` | apps/api/src/Infrastructure/Queries/SearchReadService.cs:77-162 | Each step of a search, a save or a sweep keeps the versions, times and listings of the cached answers, and marks as missed exactly those that some later save's sweep will not remove any more. |
| `SearchCache.PostServices.SearchPosts` | apps/api/src/Infrastructure/Queries/SearchReadService.cs:15-152 | Answers from the cache, which then stays as it is, or from the listing query, whose answer is then cached and registered; either way a query without '|' gets the listing of the posts as they are, and a refused status no answer. |
| `SearchCache.PostServices.InvalidateAll` | apps/api/src/Infrastructure/Queries/SearchReadService.cs:154-162 | Removing the registered keys one by one leaves no registered key cached, every other entry as it was, and the registry empty. |
| `SearchCache.PostServices.CreateAsync` | apps/api/src/Application/Services/PostMutationService.cs:14-49 | A valid, saved post is added with its texts trimmed, active and undeleted, and nothing is cached any more; a refusal or a failed save changes nothing; the cache stays coherent. |
| `SearchCache.PostServices.UpdateAsync` | apps/api/src/Application/Services/PostMutationService.cs:51-89 | The checks in their order; a saved edit replaces exactly the details, with the texts trimmed, and empties the cache; every refusal changes nothing; the cache stays coherent. |
| `SearchCache.PostServices.DeleteAsync` | apps/api/src/Application/Services/PostMutationService.cs:91-122 | The checks in their order; a saved deletion marks exactly this post deleted and empties the cache; every refusal changes nothing; the cache stays coherent. |
| `SearchCache.PostServices.UpdateStatusAsync` | apps/api/src/Application/Services/PostStatusTransitionService.cs:21-120 | Only an administrator blocks a post or lifts a block; otherwise the owner or an administrator sets exactly the status asked for, whatever its case, and the cache is emptied. Setting the status it has neither saves nor invalidates; every refusal changes nothing. |
| `SearchRanking.RankingIsTheOnlyArrangement` | apps/web/src/lib/searchRanking.ts:428-466 | The ranked entries are exactly the active posts of positive score, sorted by the comparator, and no other arrangement is sorted. |
| `SearchRanking.RankedOrder` | apps/web/src/lib/searchRanking.ts:448-465 | In the ranked list higher scores come first, then newer posts, then more views, and full ties keep their input order. |
| `SearchRanking.RankingIsIdempotent` | apps/web/src/lib/searchRanking.ts:428-466 | Ranking a ranked list with the same query and clock gives the same list. |
| `SearchRanking.MatchIsNeverDropped` | apps/web/src/lib/searchRanking.ts:300-422 | Whatever the price, pictures and description cost, a post one of whose texts contains the query has a positive score. |
| `SearchRanking.MatchesAreRankedExactly` | apps/web/src/lib/searchRanking.ts:209-466 | Which posts a search ranks: an active post with the whole query or one of its words in one of its texts exactly when it is not outweighed (it is too dear for what was asked, all it earns is ten points for one word in its seller's name, and age, views, pictures, description and phone take the two points left); and nothing but active posts of positive score. |
| `SearchRanking.WordIsKeptExactly` | apps/web/src/lib/searchRanking.ts:351-422 | A post with a word of the query in one of its texts has a positive score exactly when it is not outweighed like that. |
| `SearchRanking.DearPostIsDropped` | apps/web/src/lib/searchRanking.ts:390-422 | A family that is outweighed, with or without a phone: too dear, one word in the seller's name and no other match, no picture, no description, hardly recent or viewed. |
| `SearchRanking.NoMatchNoRank` | apps/web/src/lib/searchRanking.ts:300-422 | Without any match and any price wish the score is zero, whatever the boosts. |
| `SearchRanking.ScorePost` | apps/web/src/lib/searchRanking.ts:300-422 | The accumulated score is the sum the specification gives. |
| `SearchRanking.AddUp` | apps/web/src/lib/searchRanking.ts:355-392 | One accumulating loop computes the sum over its list. |
| `SearchScores.RelevanceByText` | apps/web/src/lib/searchRanking.ts:322-392 | The points summed text by text instead of word by word: for the query as a whole, for its words and for the words it stands for in each text, for the intents answered, and for the price. |
| `SearchScores.ExactNameWins` | apps/web/src/lib/searchRanking.ts:335-338 | Of two posts that differ only in the name, and whose names hold the same words, the one named like the query scores 70 points more than one whose name starts with it and 120 more than one whose name contains it. |
| `SearchScores.BetterMatchScoresNoLess` | apps/web/src/lib/searchRanking.ts:300-422 | A post that matches at least as well in every text, costs the same and is presented at least as well never scores less than another of some relevance. |
| `SearchScores.ContextExactly` | apps/web/src/lib/searchRanking.ts:209-253 | A query stands for its words, their singulars, and every term of the intents that one of their terms brings up; it asks for something cheap or fine exactly if it has a term for that. |
| `SearchScores.ScoreExactly` | apps/web/src/lib/searchRanking.ts:397-421 | The score is the relevance and the boosts, and nothing without relevance. |
| `SearchScores.BoostsExactly` | apps/web/src/lib/searchRanking.ts:146-165 | What age, pictures, description, phone and views add. |
| `SearchScores.PriceExactly` | apps/web/src/lib/searchRanking.ts:379-395 | What the price adds or costs, when the query asks for something cheap or fine. |
| `SearchScores.ActiveExactly` | apps/web/src/lib/searchRanking.ts:424-440 | Without a query all posts that are neither sold nor deleted come out, in the order they came in. |
| `Paging.ListingPagesMakeUpTheList` | apps/api/src/Infrastructure/Queries/PostListingQueryService.cs:21-28 | All listing pages in order are the whole sorted, filtered list. |
| `Paging.ClampedOffsetIsExact` | apps/api/src/Infrastructure/Queries/PostListingQueryService.cs:28 | The clamped offset gives the page meant exactly when it needs no clamping or no rows lie past the clamp. |
| `Paging.TotalIsReportedOnRealPages` | apps/api/src/Infrastructure/Queries/PostListingQueryService.cs:210-217 | Exactly the pages up to the page count have rows and the true total; later pages report a total of none. |
| `Paging.QueryClamps` | apps/api/src/Infrastructure/Queries/PostListingQueryService.cs:21-28 | A page or limit that makes no sense is taken as the first page, twenty rows or two hundred. |
| `Paging.OrderByLeavesNoTies` | apps/api/src/Infrastructure/Queries/PostListingQueryService.cs:277-291 | Each order-by clause is a strict order without ties on distinct posts, so there is one sorted list. |
| `Paging.ListingOrder` | apps/api/src/Infrastructure/Queries/PostListingQueryService.cs:277-291 | A sorted listing goes by the chosen field in the chosen direction and then newest first; by date, date and identity go in the same direction. |
| `Paging.ChatPagesMakeUpTheHistory` | apps/api/src/Infrastructure/DataAccess/MessageDataAccessAdapter.cs:40-69 | Chat pages taken last to first are the chronological history, and each page with an offset below 2^31 is the page meant. |
| `Paging.ChatPageClamps` | apps/api/src/Infrastructure/DataAccess/MessageDataAccessAdapter.cs:40-56 | So is a page of a history, with one message or two hundred. |
| `Paging.WrappedPageIsExact` | apps/api/src/Infrastructure/DataAccess/MessageDataAccessAdapter.cs:46-60 | For an offset that wraps around 32 bits, exactly when the page is still the (empty) page meant. |
| `Paging.LargePageRepeatsMessages` | apps/api/src/Infrastructure/DataAccess/MessageDataAccessAdapter.cs:60-61 | A page number whose wrapped offset repeats recent messages. |
| `Paging.ReversedIsChronological` | apps/api/src/Infrastructure/DataAccess/MessageDataAccessAdapter.cs:65-66 | Reversing a list sorted newest first gives the same messages in chronological order. |
| `Comments.AtMostFiveAMinute` | apps/api/src/Application/Services/PostCommentService.cs:108-118 | In every run at most five live comments of one user fall in any closed minute, and as many more as the user stores between the count and the insert of one add (none without overlapping adds); the parent of a reply is a top-level comment of the same post. |
| `Comments.LimitIsTight` | apps/api/src/Application/Services/PostCommentService.cs:108-118 | A comment is let through exactly when it leaves the last minute with at most five. |
| `Comments.EventKeepsInv` | apps/api/src/Application/Services/PostCommentService.cs:25-140 | Every step of an add, update, deletion and account deletion keeps the limit, what each add under way has counted, the one level and the order of times. |
| `Comments.AddKeepsLimit` | apps/api/src/Infrastructure/DataAccess/PostCommentDataAccessAdapter.cs:146-155 | A comment that is stored leaves every closed minute with at most five, and as many more as came since it counted. |
| `Comments.OverlappingAddsExceed` | apps/api/src/Application/Services/PostCommentService.cs:98-121 | From every state with four comments of a user in the last minute, two overlapping adds are both let through and leave six. |
| `Comments.LimitIsKeptExactly` | apps/api/src/Application/Services/PostCommentService.cs:98-121 | A run keeps the limit throughout exactly when no comment is stored into a closed minute that holds five of its user already. |
| `Comments.CrowdingOverlaps` | apps/api/src/Application/Services/PostCommentService.cs:98-121 | Storing into such a minute takes an overlap: some comment of the user was stored after the add had counted. |
| `Comments.PostCommentService.AddComment` | apps/api/src/Application/Services/PostCommentService.cs:25-140 | Its text, its post, its parent and the rate decide in this order, each refusal exactly when it applies; then exactly the trimmed comment is added, or nothing when the save fails. A run of the machine. |
| `Comments.PostCommentService.UpdateComment` | apps/api/src/Application/Services/PostCommentService.cs:228-297 | Exactly the author edits a shown comment of the post, and nothing but its text changes; says which check refused. |
| `Comments.PostCommentService.DeleteComment` | apps/api/src/Application/Services/PostCommentService.cs:299-348 | Deletes exactly what author, post owner or administrator may delete, and says which check refused. |
| `DataHygiene.AutomaticCleanupIsSmall` | apps/api/src/Infrastructure/Services/DataHygieneService.cs:126-177 | Whatever fails and however long it takes, a scan by itself touches at most five per cent of any table, of the rows that were due when it counted; any other row it touches became due before its last cleanup. |
| `DataHygiene.StillClockTouchesFewer` | apps/api/src/Infrastructure/Services/DataHygieneService.cs:126-177 | With the clock standing still it touches at most five per cent of any table in all. |
| `DataHygiene.AuditRowsAreNeverRemoved` | apps/api/src/Infrastructure/Services/DataHygieneService.cs:106-116 | Over any run of scans and approvals no audit row, post, message or review is removed or changed. |
| `DataHygiene.SecondApprovalDoesNothing` | apps/api/src/Infrastructure/Services/DataHygieneService.cs:259-295 | With nothing pending in a cycle, approving it does nothing, whatever scans of other cycles and approvals came in between. |
| `DataHygiene.ApprovedTwice` | apps/api/src/Infrastructure/Services/DataHygieneService.cs:259-295 | After an approval, a later approval of the same cycle changes nothing. |
| `DataHygiene.ExecuteCleansOnce` | apps/api/src/Infrastructure/Services/DataHygieneService.cs:158-172 | After cleanups that all succeed at one time each table is as it was, or cleaned once because a finding was due. |
| `DataHygiene.ExecuteTouchesMatching` | apps/api/src/Infrastructure/Services/DataHygieneService.cs:158-172 | Whatever fails, the loop touches nothing but rows that match by the time of its last cleanup, in tables with a finding that was due. |
| `DataHygiene.CleanTouchesReached` | apps/api/src/Infrastructure/Services/DataHygieneService.cs:299-350 | A cleanup touches exactly the rows it reaches: all it is after, or, if it throws, those of the batches before. |
| `HygieneCleanups.DueExactly` | apps/api/src/Infrastructure/Services/DataHygieneService.cs:306-344 | What is due, table by table: expired tokens and challenges, push subscriptions inactive for 90 days, notifications read 30 days ago, pictures and favourites of deleted posts, and nothing deleted already. |
| `HygieneCleanups.CleanExactly` | apps/api/src/Infrastructure/Services/DataHygieneService.cs:303-347 | A cleanup deletes exactly the due rows of three tables, marks those of three others as deleted, and leaves every other row as it is. |
| `HygieneCleanups.ScanCleansExactly` | apps/api/src/Infrastructure/Services/DataHygieneService.cs:126-172 | A scan in which nothing fails cleans exactly the scanned tables of which at most five per cent is due. |
| `HygieneCleanups.ApprovalCleansExactly` | apps/api/src/Infrastructure/Services/DataHygieneService.cs:259-295 | An approval in which nothing fails cleans exactly the tables of the findings of its cycle that wait for review. |
| `HygieneCleanups.ScanAndApprovalCleanAll` | apps/api/src/Infrastructure/Services/DataHygieneService.cs:26-295 | Together a scan and the approval of its cycle clean every scanned table once, and leave nothing due. |
| `HygieneCleanups.FindsExactly` | apps/api/src/Infrastructure/Services/DataHygieneService.cs:46-141 | A scan finds exactly the scanned tables with due rows, each once and with their number: safe to delete if they are at most five per cent, else for review. |
| `HygieneCleanups.MarkedExactly` | apps/api/src/Infrastructure/Services/DataHygieneService.cs:158-172 | How a finding comes out of the cleanups: as it was, done, or skipped by an approval. |
| `HygieneCleanups.LargeFindingWaits` | apps/api/src/Infrastructure/Services/DataHygieneService.cs:126-150 | A scanned table with more than five per cent due is logged for review with the number of rows. |
| `HygieneCleanups.AuditIsReported` | apps/api/src/Infrastructure/Services/DataHygieneService.cs:111-141 | Old audit rows are logged for the archive, or for review if they are more than five per cent. |
| `HygieneCleanups.LogIsKeptForNinetyDays` | apps/api/src/Infrastructure/Services/DataHygieneService.cs:180-186 | What an earlier scan logged goes after 90 days and not before. |
| `HygieneCleanups.ReportsTouched` | apps/api/src/Infrastructure/Services/DataHygieneService.cs:299-358 | A cleanup that does not fail reports just as many rows as it touches. |
| `HygieneServiceObject.DataHygieneService.PurgeInBatches` | apps/api/src/Infrastructure/Services/DataHygieneService.cs:413-425 | However the clock moves between batches, the loop ends, has deleted exactly the rows that match at the time of its last batch, and counts them; if a batch throws, only rows of earlier batches are gone. |
| `HygieneServiceObject.DataHygieneService.ExecuteCleanup` | apps/api/src/Infrastructure/Services/DataHygieneService.cs:299-358 | The table and the count after one cleanup under a moving clock; when a statement throws, zero is reported and the batches before are gone. |
| `HygieneServiceObject.DataHygieneService.ExecuteDue` | apps/api/src/Infrastructure/Services/DataHygieneService.cs:158-172 | The tables and findings after the loop, in the source's order, whichever cleanups throw, and the rows they report together. |
| `HygieneServiceObject.DataHygieneService.ApplyThreshold` | apps/api/src/Infrastructure/Services/DataHygieneService.cs:126-141 | Each finding over five per cent of its table goes to review, the others are kept. |
| `HygieneServiceObject.DataHygieneService.RunDiagnosticScan` | apps/api/src/Infrastructure/Services/DataHygieneService.cs:26-202 | The database after a scan: cleanups, log and self-purge, and the rows it reports. |
| `HygieneServiceObject.DataHygieneService.ApproveAndExecute` | apps/api/src/Infrastructure/Services/DataHygieneService.cs:259-295 | The database after an approval and the rows it reports; none when nothing is pending. |
| `HybridCache.HitsAreRecent` | apps/api/src/Infrastructure/Caching/HybridCacheService.cs:14-52 | With any number of nodes and any interleaving of the steps of gets, sets and removals, what a get finds in its first level was stored under that key by a set at most its lifetime ago, or, if an earlier get copied it there, at most that lifetime, five minutes and the time that get waited between its read and its fill. |
| `HybridCache.ReadsAreRecent` | apps/api/src/Infrastructure/Caching/HybridCacheService.cs:22-43 | What a get answers after waiting for the shared level was live there when it was read. |
| `HybridCache.DefaultStaleness` | apps/api/src/Infrastructure/Caching/HybridCacheService.cs:54-71 | With default lifetimes and gets that wait at most d, nothing older than two hours, five minutes and d is answered from the first level, and it was the argument of a set of that key in the run. |
| `HybridCache.HistoryComesFromSets` | apps/api/src/Infrastructure/Caching/HybridCacheService.cs:54-71 | Everything recorded as stored comes from a set in the run, with its lifetime or the default. |
| `HybridCache.RemovedValueIsStillRead` | apps/api/src/Infrastructure/Caching/HybridCacheService.cs:73-77 | The bound is reached for every delay: a node that read just before the shared entry ended and filled later still answers the value after another node removed it. |
| `HybridCache.SetIsReadBack` | apps/api/src/Infrastructure/Caching/HybridCacheService.cs:14-71 | A value in the first level is answered at every moment of a run exactly when nothing in the run displaces it: another set there, a drop or removal, its end, or a get that comes back with another value. |
| `HybridCache.SetIsReadEverywhere` | apps/api/src/Infrastructure/Caching/HybridCacheService.cs:14-71 | Once a set has reached the shared level, and nothing older of its key is held or on its way, a get on any node answers its value for its lifetime, whatever is read meanwhile and whatever happens to other keys. |
| `HybridCache.SetIsShared` | apps/api/src/Infrastructure/Caching/HybridCacheService.cs:53-71 | A set alone on its key comes to such a state, for the lifetime given or two hours, and one hour in its own first level. |
| `HybridCache.RemovalIsExact` | apps/api/src/Infrastructure/Caching/HybridCacheService.cs:73-77 | A removal empties its own first level and the shared one of the key, and leaves every other entry. |
| `HybridCache.UnreadableIsRemoved` | apps/api/src/Infrastructure/Caching/HybridCacheService.cs:22-51 | A get that cannot read what the shared level answered gives nothing and removes it there, and nothing else. |
| `HybridCache.LateFillHidesSet` | apps/api/src/Infrastructure/Caching/HybridCacheService.cs:22-41 | From every state in which a node must read another value from the shared level: its late fill hides a set that the same node has completed in both levels meanwhile. |
| `HybridCache.HybridCacheService.Get` | apps/api/src/Infrastructure/Caching/HybridCacheService.cs:14-52 | On one node, one call at a time, a get returns the latest value set under the key and not removed, or nothing; something exactly when a level has a live, readable entry, which then fills the first level. |
| `HybridCache.HybridCacheService.Set` | apps/api/src/Infrastructure/Caching/HybridCacheService.cs:54-71 | Both levels hold the value, for the lifetime given, or for one hour and two; no other key changes, and it is the latest. |
| `HybridCache.HybridCacheService.Remove` | apps/api/src/Infrastructure/Caching/HybridCacheService.cs:73-77 | Neither level holds the key, and there is no latest value. |

## Left out

- Chat: payload parsing; SignalR itself, which is hub state changes, closes, deliveries and the outcomes of start, stop and invoke in any order; listener registration.
- Session state: error texts and their cool-down, the failure counter and retry delays, the query cache and the comparison list, periodic revalidation other than as further checks.
- AuthTheorems.SessionStateIsConsistent: does not promise that a login survives an overlapping check or that `loading` always clears, because the code does neither.
- Users: columns that do not decide on sessions are one `profile` field; case is folded for the letters A to Z only.
- TokenBlacklist.BlacklistedTokens.AddToBlacklist: two overlapping adds of one token are not interleaved.
- LikePattern.PrefixPatternIsExact: collations, the truncation of SQL parameters and culture rules of upper-casing; characters are compared by code point.
- Listing query: the join that builds each row; the cache theorems take the listing as a function of the posts and of the trimmed texts, which ArgumentsComeFromListing justifies.
- SearchCache.SearchesAreUncached: each service call is one step (SearchRaces cuts them), and the only writers are the post services; view counts, user changes and other writers of posts are not modelled.
- Search: prices, which are their culture-invariant texts, and number formats other than digits with a plus sign.
- Post details: foreign keys and validation of locations; a failed save is a flag of the event.
- Messages: content rules (length, inline images) are one flag; notifications; exceptions other than a refused row; the tracker state after a failed insert, of which only the returned id is modelled; the database trigger, which the invariant does not need.
- Messaging.MarkingBetweenIsMarkingEach: the two markings are compared as single statements on one state.
- Google sign-in: other providers, the provider e-mail kept with a link, profile hydration, e-mails without '@', tokens; a sign-up is one step with its outcome.
- GoogleLinking.LinkGoesThrough: starts where a call sets out to link; whether a sign-up creates its account is an outcome of that step.
- Challenges: creation times and the cascade when a user row is removed; other database errors, which propagate without a change.
- SearchRanking.ScorePost: takes texts already normalised; points are exact, the logarithm is any function that is not negative from one on, and rounding is not modelled.
- Paging: the rows of a listing do not change between the pages; the session of an inbox query is one state.
- DataHygiene.AutomaticCleanupIsSmall: percentages are exact, and nobody else writes meanwhile.
- Hygiene: failures of the counting and of saving the log, notes, cancellation, reports and history; six months before now is a parameter.
- HybridCache.HitsAreRecent: sliding expiry is covered as dropping an entry at any time; a stored null is not modelled.
- Administration listings, favourites, reviews, categories, rate limits of other services, encryption, images, e-mail and user interface would add only easy members.
