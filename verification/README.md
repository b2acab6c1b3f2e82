# DingTalk approval-attachment broker: a verified model

The broker hands DingTalk approval attachments to command-line clients. A client gets its session through
a device-authorization flow, keeps it alive by rotating refresh tokens, lists the approval templates its user
can see, searches approvals, and streams attachments. This project models the parts of the broker and of its
client whose correctness depends on interleavings, lost acknowledgements, clocks, or loops over an upstream
that may answer anything, and proves what they promise over whole runs.

| files | component |
|---|---|
| `Domain`, `Text`, `Sets`, `Ordering`, `DecisionLog`, `Approvals` | instants, errors, strings, finite sets, sorting, admission histories, approvals |
| `AuthDatabase`, `AuthStore` | the authentication tables, and the store that changes them in place |
| `Availability` | what must succeed: each transaction in terms of the row it finds, and logins and sessions along whole runs |
| `StatusOrder`, `Lineage`, `PruneInvisible`, `PruneBoundary`, `CommitOutcomes` | theorems about every run of the store |
| `AuthService` | the authorization service above the store, with other replicas in between |
| `RefreshProtocol`, `RefreshRuns`, `CredentialClient` | client processes that share one credential file |
| `TokenCache`, `TokenMachine` | the single-flight cache of the application token |
| `Streams`, `Downloads`, `DownloadRuns` | capped and sized readers, download slots |
| `Catalog`, `CatalogCache`, `CategoryPages` | loading, caching and paging through the catalogue |
| `Cursor`, `SearchChain`, `Candidates`, `CandidateWalk`, `SearchFanout` | approval search |
| `HttpRateLimiter`, `HttpPruning`, `SearchRateLimiter` | rate limits |

How the model reads the program:

- A store transaction is one atomic step, since it locks the row it decides on. Each step carries what the
  network does to it: nothing ran, committed and acknowledged, committed but reported as an error, or aborted.
  Any sequence of steps is a run of any number of replicas. `AuthStore.Store` executes the transactions on its
  fields; a ghost log ties it to the runs the theorems speak about.
- Instants are integers in nanoseconds; divisions round down, as the library's conversions to seconds and
  milliseconds do.
- Keyed digests are injective: a digest is represented by what it digests, or is a parameter assumed injective
  (`Injective(seal)` for category identifiers, `Sound(codec)` for serialised cursors). Freshly drawn tokens are
  fresh; each theorem that needs this says so (`Fair`, `Allowed`, `SeedFree`, `NoneMints`).
- What must not happen is proved beside what must: the safety theorems have partners that say which call
  succeeds, in terms of rows, answers, clocks and chunks (`Availability`, `TokenCache.CallsGetTheNewToken`,
  `Streams.Drain`, `SearchFanout.FoundIffSearched`, `CatalogCache.FetchServesForAMinute`).
- Goroutines and processes are events over a shared state, in any order. Upstreams are arbitrary functions.

Where the code promises less than a reader may expect, the exact boundary is proved:

- A claim that was never applied can be confirmed by a rival's claim (`CommitOutcomes.UnappliedClaimConfirmed`),
  because its second look goes by the OAuth state. A confirmation is the caller's own exactly when no other claim
  of the authorization committed in between (`CommitOutcomes.ClaimConfirmationIsExact`). Exchange and rotation
  have no such gap.
- A revocation notices that an expired session was pruned, and drawing an expired code again notices that its
  authorization was (`PruneBoundary.PruneIsSeen`); `PruneBoundary.RevocationAlikeIff` and
  `PruneBoundary.CreationAlikeIff` say exactly when.
- Forgetting idle addresses changes a decision of the request limiter exactly when a prune has made room for an
  address that a limiter which never forgets sends to the overflow bucket (`HttpPruning.PruningTellsIff`);
  `HttpPruning.FullTableBreaksIt` is such a run.
- A search accepted with an end time in the last second of the clock skew may lose its continuation
  (`SearchChain.LateEndIsLost`); `SearchChain.SecondPageAcceptedIff` gives the exact condition.
- The base64 decoder accepts more than one text for a payload (`Cursor.NotOnlyCanonicalTextsAreAccepted`).

## Model

| member | source | states |
|---|---|---|
| `AuthDatabase.ApplySound` | internal/postgres/migrations/001_initial_schema.sql:1-45 | every transaction, under every network outcome, keeps the UNIQUE and FOREIGN KEY constraints and the couplings: user set iff approved or consumed, OAuth state only while pending or authorizing |
| `AuthDatabase.ExecSound` | internal/postgres/migrations/001_initial_schema.sql:12-45 | the same in every state any run reaches from the empty schema |
| `AuthDatabase.RowWrites` | internal/postgres/store.go:103-370 | a transaction that commits on a device row found it unexpired and in the status that step requires |
| `AuthStore.Store.CreateDeviceAuthorization` | internal/postgres/store.go:83-101 | inserts the pending row, or conflicts with a taken code, as one step of the run |
| `AuthStore.Store.BindOAuthState` | internal/postgres/store.go:103-156 | binds a state to a pending, unexpired row once; the same state again succeeds, another is refused |
| `AuthStore.Store.RejectOAuthState` | internal/postgres/store.go:158-180 | denies a pending, unexpired row by its state |
| `AuthStore.Store.ClaimOAuthState` | internal/postgres/store.go:182-236 | pending to authorizing, with an ambiguous answer when the commit's fate is unknown |
| `AuthStore.Store.GetClaimedOAuthState` | internal/postgres/store.go:372-416 | the second look of a claim, by state hash |
| `AuthStore.Store.RejectDeviceAuthorization` | internal/postgres/store.go:238-291 | denies an authorizing row; denying a denied row succeeds |
| `AuthStore.Store.CompleteDeviceAuthorization` | internal/postgres/store.go:293-370 | authorizing to approved with the verified user, upserted under the union-ID constraint |
| `AuthStore.Store.ExchangeDeviceAuthorization` | internal/postgres/store.go:418-494 | approved to consumed together with the insert of the first session |
| `AuthStore.Store.GetSessionByAccessToken` | internal/postgres/store.go:519-544 | finds exactly an unrevoked session with unexpired access |
| `AuthStore.Store.RotateSession` | internal/postgres/store.go:546-612 | revokes the old session and inserts its successor in one step, or changes nothing |
| `AuthStore.Store.RevokeSession` | internal/postgres/store.go:614-634 | revokes by access token, checking no expiry |
| `AuthStore.Store.PruneAuthenticationState` | internal/postgres/store.go:674-718 | deletes exactly the stale sessions and expired authorizations |
| `Availability.RotateOutcome` | internal/postgres/store.go:546-612 | a refresh token that no one revoked works until its own expiry, whatever its access token; then the old session is revoked and its successor inserted, and otherwise it is unauthorized and nothing changes |
| `Availability.RefreshWorksIff` | internal/postgres/store.go:546-612 | a rotation succeeds iff some session has the token, is not revoked and has not reached its refresh expiry |
| `Availability.NewSessionWorks` | internal/postgres/store.go:519-612 | after a rotation the new access token works at once, until its expiry |
| `Availability.GetSessionOutcome` | internal/postgres/store.go:519-544 | an access token works iff it is not revoked and has not reached its expiry |
| `Availability.RevokeOutcome` | internal/postgres/store.go:614-634 | an unrevoked session is revoked by its access token, expired or not |
| `Availability.UnknownToken` | internal/postgres/store.go:519-634 | a token that no session has is unauthorized everywhere |
| `Availability.ExchangeOutcome` | internal/postgres/store.go:418-494 | what a polling device is told in each status, and the session it gets from an approved, unexpired row |
| `Availability.CompleteOutcome` | internal/postgres/store.go:293-370 | a completion succeeds iff the row is claimed, unexpired, and no other user of the corporation has the union ID; what it then stores, and every refusal |
| `Availability.ClaimOutcome` | internal/postgres/store.go:182-236 | a state is claimed once, in time; the second look finds it while it is claimed |
| `Availability.BindOutcome` | internal/postgres/store.go:103-156 | a free state is bound to a pending, unexpired row without another state |
| `Availability.RejectOutcome` | internal/postgres/store.go:158-291 | when a state or a claimed code is rejected, and every refusal |
| `Availability.CreateOutcome` | internal/postgres/store.go:83-101 | a creation succeeds iff code and user code are new |
| `Availability.UnknownCode` | internal/postgres/store.go:103-494 | a code or state that no row has is refused everywhere |
| `Availability.PruneOutcome` | internal/postgres/store.go:674-718 | exactly which rows a prune deletes |
| `Availability.NetworkOutcome` | internal/postgres/store.go:223-235 | a lost acknowledgement hides what was done, an aborted commit does nothing, and refusals need no commit |
| `Availability.IssuedSessionWorks` | internal/postgres/store.go:418-634 | in every run a session that was issued works with both tokens, each until its expiry, until a committed rotation or revocation of it or a prune with a cutoff past both expiries |
| `Availability.CreatedCodeCanBeBound` | internal/postgres/store.go:83-156 | in every run a created code can be bound in time, until a transaction aimed at its row commits |
| `Availability.BoundStateCanBeClaimed` | internal/postgres/store.go:103-236 | likewise a bound state can be claimed |
| `Availability.ClaimedCodeCanBeCompleted` | internal/postgres/store.go:182-370 | likewise a claimed code can be completed for any user whose union ID is free |
| `Availability.CompletedCodeCanBeExchanged` | internal/postgres/store.go:293-494 | likewise a completed code is exchanged for a session of the user it was completed for |
| `Availability.LoginWorks` | internal/postgres/store.go:83-494 | a login in time works from end to end, whatever other transactions run in between: binding, claim, completion and exchange succeed, with the right code and user |
| `StatusOrder.StepContinues` | internal/postgres/store.go:103-494 | no step lowers a row's status, reassigns its user or changes a finished row |
| `StatusOrder.RunContinues` | internal/postgres/store.go:103-494 | the same over any stretch of any run, until the row is created anew |
| `StatusOrder.StageCommitsOnce` | internal/postgres/store.go:182-494 | at most one claim, one completion and one exchange of an authorization ever commits, acknowledged or not |
| `StatusOrder.DeniedStaysClosed` | internal/postgres/store.go:238-291 | after a denial every later exchange is refused |
| `Lineage.FollowRun` | internal/postgres/store.go:418-634 | the recorded history of every authorization and session agrees with the tables after every run, prunes included |
| `Lineage.SingleLiveDescendant` | internal/postgres/store.go:418-634 | in every reachable state of every interleaving an authorization has at most one unrevoked session descending from it |
| `Lineage.SessionProvenance` | internal/postgres/store.go:182-494 | every session's own lineage starts at one authorization that was created, claimed, completed for that session's user and exchanged, in that order and before expiry |
| `Lineage.SessionAncestry` | internal/postgres/store.go:418-612 | every session ever inserted, also one deleted since, was inserted by the one exchange of its authorization or by rotating an earlier session of the same authorization, for the user of that authorization |
| `Lineage.SiblingsShareUser` | internal/postgres/store.go:546-612 | rotation never changes the corporation or user of a session |
| `AuthService.SessionsAreVouched` | internal/auth/service.go:313-344 | when every completion names a verified user of the configured corporation, so does every session of every reachable state |
| `PruneInvisible.StepAlike` | internal/postgres/store.go:674-718 | on tables that differ only in dead rows, every operation but revocation gives the same success and user |
| `PruneInvisible.StepSimulates` | internal/postgres/store.go:674-718 | every step, prunes with a cutoff not in the future included, keeps the pruned tables equal to the full ones minus dead rows |
| `PruneInvisible.PruningIsInvisible` | cmd/server/application.go:151-173 | at every position of a run, conflicting creations included, the answers equal those of the run without any prune, up to the kind of error |
| `PruneBoundary.RevocationAlikeIff` | internal/postgres/store.go:614-634 | at every position of a fair run a revocation is answered alike iff it is not the case that it would succeed unpruned and a committed prune, with a cutoff after both expiries of its session, deleted that session |
| `PruneBoundary.CreationAlikeIff` | internal/postgres/store.go:83-101 | the same for drawing a code again: answers differ iff every authorization it conflicts with had expired before the cutoff of a committed prune |
| `PruneBoundary.SessionMissingIff` | internal/postgres/store.go:674-718 | over a fair run a session that is not revoked is missing iff a committed prune found both its expiries before the cutoff |
| `PruneBoundary.PruneIsSeen` | cmd/server/application.go:151-173 | a fair run from the empty schema after which a revocation and a creation both tell the difference |
| `CommitOutcomes.ConfirmationIsExact` | internal/postgres/store.go:496-517 | after an ambiguous exchange or rotation, and any other transactions, the second look succeeds iff this very commit was applied and its row is still usable; the user is its own |
| `CommitOutcomes.RotationSwapsOrKeeps` | internal/postgres/store.go:601-611 | exactly one of the old and new session is live afterwards; an unapplied rotation leaves the old one usable |
| `CommitOutcomes.OneAcknowledgedClaim` | internal/postgres/store.go:226-235 | at most one claim of an authorization is acknowledged |
| `CommitOutcomes.ClaimConfirmationSound` | internal/postgres/store.go:397-416 | a confirmed claim means some claim of that authorization was committed in time |
| `CommitOutcomes.ClaimConfirmationIsExact` | internal/postgres/store.go:397-416 | a confirmed claim is the caller's own iff no other claim of that authorization committed between the claim and the second look |
| `CommitOutcomes.UnrivalledClaimIsOwn` | internal/postgres/store.go:226-235 | with no other claim of the state in between, a claim that was not applied is never confirmed |
| `CommitOutcomes.UnappliedClaimConfirmed` | internal/postgres/store.go:397-416 | an instance: a run where a rival's claim confirms one that was aborted |
| `AuthService.Interfere` | internal/auth/service.go:286-377 | between two store calls, other requests extend the same history by any transactions |
| `AuthService.Service.CreateDeviceAuthorization` | internal/auth/service.go:178-210 | draws codes at most five times, each after a conflict; success means the last drawn row is pending with its lifetime, a final conflict that all five conflicted, and any other error that the network failed |
| `AuthService.Service.RejectClaimedAuthorization` | internal/auth/service.go:348-377 | the retry loop ends by its deadline; success means the row is denied even if an earlier try was applied unseen, a refusal that it cannot be denied, and giving up that no try was acknowledged until the deadline |
| `AuthService.Service.ClaimState` | internal/postgres/store.go:397-416 | the code returned is what a claim of this very state, or the second look at it, was answered with; an acknowledged claim succeeds iff a pending, unexpired row has the state |
| `AuthService.Service.LookAtClaim` | internal/postgres/store.go:397-416 | after an open claim the second look succeeds iff the database answers and the state is claimed and unexpired after what others did |
| `AuthService.Verify` | internal/auth/service.go:313-342 | a user is vouched for iff every answer of the provider is there, for the configured corporation, and nothing needed is empty; then it is that corporation's user ID with the profile's union ID and name |
| `AuthService.Service.CompleteAuthorization` | internal/auth/service.go:286-346 | success means the row is approved for the corporation's user ID the provider answered with, whose union ID and name are stored; with acknowledged commits it succeeds iff the state is claimable, the provider's answers are in order, and the row can still be completed; a failure without rejection error means denied |
| `AuthService.Service.CompleteVouched` | internal/auth/service.go:330-344 | a completion that succeeds leaves the row approved for that user and the user stored; acknowledged, it succeeds iff the row can be completed after what others did |
| `AuthService.Service.ConfirmSessionCommit` | internal/postgres/store.go:496-517 | the second look reports success iff this transaction issued the session and it is usable |
| `AuthService.Service.Refresh` | internal/auth/service.go:414-432 | success iff the commit was acknowledged or the second look found the row this rotation inserted, and then that row is live; acknowledged, it succeeds iff the token belongs to a session that is not revoked or past its refresh expiry |
| `AuthService.Service.ExchangeDeviceAuthorization` | internal/auth/service.go:379-400 | the same for the first session; acknowledged, it succeeds iff the row is approved and unexpired, for the user it is approved for |
| `RefreshRuns.AdvanceInv` | skills/dingtalk-oa-attachment/scripts/dingtalk_oa_attachment.py:461-504 | one inductive invariant of file, database and all processes is kept by every move: lost responses, failed saves, unacknowledged commits, repeats, prunes |
| `RefreshRuns.FileIsNewestOrPrevious` | skills/dingtalk-oa-attachment/scripts/dingtalk_oa_attachment.py:461-504 | the file always holds the newest session minted or its direct predecessor; before the first save either token may be missing from it |
| `RefreshRuns.FileNeverGoesBack` | skills/dingtalk-oa-attachment/scripts/dingtalk_oa_attachment.py:501-504 | no save moves the file to an older session |
| `RefreshRuns.OneUnsavedHolder` | skills/dingtalk-oa-attachment/scripts/dingtalk_oa_attachment.py:476-503 | at most one process holds a session the file does not have, and it is the newest |
| `RefreshRuns.CallsAreBounded` | skills/dingtalk-oa-attachment/scripts/dingtalk_oa_attachment.py:461-504 | a call makes at most one refresh and two bearer requests |
| `CredentialClient.Machine.AuthenticatedOpen` | skills/dingtalk-oa-attachment/scripts/dingtalk_oa_attachment.py:461-504 | the call itself, between arbitrary moves of others: the last request carries a session not older than the file's and ends with the broker's answer to it; a refresh is sent unless the first answer ends the call; what each answer to it leads to, so that the four recoverable errors never end the call as they are; and when nothing goes wrong a renewable session always succeeds |
| `CredentialClient.Machine.Recover` | skills/dingtalk-oa-attachment/scripts/dingtalk_oa_attachment.py:480-499 | the polling loop looks at once and again after each pause: it ends with the first look that found other credentials, asking with those, or after the full wait when none did |
| `CredentialClient.Machine.SaveAndAsk` | skills/dingtalk-oa-attachment/scripts/dingtalk_oa_attachment.py:502-504 | a session that arrived is newer than the file's; it is asked with iff it was saved, else the call fails |
| `CredentialClient.Machine.RequestRotation` | internal/auth/service.go:414-432 | one refresh request with the broker's second look, as moves of the protocol; acknowledged, it brings a new session iff the old one can be renewed |
| `CredentialClient.Machine.RefreshAndAsk` | skills/dingtalk-oa-attachment/scripts/dingtalk_oa_attachment.py:476-504 | what each answer to a refresh leads to, and success when nothing goes wrong and the session can be renewed |
| `CredentialClient.Machine.TryFirst` | skills/dingtalk-oa-attachment/scripts/dingtalk_oa_attachment.py:461-475 | the call ends without a refresh only with an answer that is no refusal, or without a refresh token |
| `CredentialClient.Machine.Interfere` | skills/dingtalk-oa-attachment/scripts/dingtalk_oa_attachment.py:461-504 | whatever the others do, the lineage only grows and the file does not go back |
| `TokenCache.AppTokenCache.Ask` | internal/dingtalk/token_cache.go:46-66 | a hit iff the token is fresh or backed off and valid; otherwise the one refresh, started only if there is none |
| `TokenCache.AppTokenCache.FetchToken` | internal/dingtalk/token_cache.go:68-93 | a good answer is stored and given out, also while the old token is valid; otherwise a token that is still valid is given out and the backoff armed for a minute; otherwise the error |
| `TokenCache.SuccessIsStored` | internal/dingtalk/token_cache.go:75-79 | after a good answer cache and outcome hold the new token with its expiry, and the backoff is over |
| `TokenCache.FailureIsBridged` | internal/dingtalk/token_cache.go:80-88 | any other end keeps a valid token for a minute until the next try, and else gives the error |
| `TokenCache.WaitersGetTheNewToken` | internal/dingtalk/token_cache.go:75-102 | in every run whoever waited for a fetch that succeeded is given its token, whenever it wakes |
| `TokenCache.CallsGetTheNewToken` | internal/dingtalk/token_cache.go:46-79 | in every run, until another fetch ends, each later call gets that token at once up to the refresh margin ahead of its expiry, and after that joins or starts the next fetch |
| `TokenMachine.Machine.Wake` | internal/dingtalk/token_cache.go:95-102 | in every run of the cache a waiter whose refresh ended returns what that refresh came to, the same as every other waiter of it, and a token only if it was unexpired when chosen |
| `TokenMachine.Machine.Call` | internal/dingtalk/token_cache.go:46-66 | a call is one event of the run: an unexpired token at once, or a place among the waiters of the running refresh |
| `TokenMachine.Machine.Finish` | internal/dingtalk/token_cache.go:68-93 | the end of a fetch is one event of the run |
| `TokenCache.OneFetchInFlight` | internal/dingtalk/token_cache.go:46-66 | under every interleaving at most one fetch is running |
| `TokenCache.WaitersAgree` | internal/dingtalk/token_cache.go:95-102 | waiters of one refresh get the same result, and a token was unexpired when chosen |
| `TokenCache.HitsAreValid` | internal/dingtalk/token_cache.go:46-58 | a token served at once was unexpired when chosen |
| `TokenCache.BackoffHolds` | internal/dingtalk/token_cache.go:68-93 | after a fallback no fetch starts before the retry time or the token's expiry, whichever is earlier |
| `TokenCache.CancellationIsLocal` | internal/dingtalk/token_cache.go:95-102 | removing all cancellations from a run changes nothing for anybody else |
| `Streams.LimitedReader.Read` | internal/attachments/downloader.go:270-310 | hands over upstream bytes up to the cap; end of file alone, after every byte, iff the upstream ended within the cap; every read goes on or reports a fault that the upstream, the cap or a stalled upstream explains |
| `Streams.ExpectedSizeReader.Read` | internal/attachments/service.go:407-428 | never more than the expected size; up to the first fault, end of file only after exactly that size, all delivered, and any other end is a fault |
| `Streams.ReadBody` | internal/attachments/service.go:203-233 | both readers over any upstream: a fault is end of file iff the upstream ended as it should, and every read goes on or stops for a reason |
| `Streams.CleanCapping` | internal/attachments/downloader.go:270-310 | when the chunks end cleanly within the cap a capped reader ends with end of file and nothing else |
| `Streams.CleanIffEof` | internal/attachments/service.go:407-428 | a consumer that has seen a fault has a clean end iff the chunks end cleanly, and then all their bytes |
| `Streams.Drain` | internal/httpapi/handler.go:948 | a consumer that stops at the first fault has a prefix within the limit; with enough non-empty buffers it has all the chunks' bytes and a clean end iff the chunks end cleanly within the cap, at exactly the size when that is known, and else a fault |
| `Downloads.DownloadLimiter.Acquire` | internal/attachments/service.go:382-388 | a slot iff the user holds fewer than the limit |
| `Downloads.DownloadLimiter.Release` | internal/attachments/service.go:389-399 | only the first release counts; a zero counter is removed; every user's counter stays the number of slots held |
| `Downloads.Interfere` | internal/attachments/service.go:369-400 | any acquires and releases of other requests leave the slots of this one held and the counters right |
| `Downloads.ReleaseReader.Read` | internal/attachments/service.go:440-446 | also after a fault: any fault releases the slot, the first time, and no other slot changes; up to the first fault the bytes are what the stream promises |
| `Downloads.ReleaseReader.Close` | internal/attachments/service.go:448-456 | closing releases the slot at most once and closes the upstream |
| `Downloads.ReleaseReader.Serve` | internal/httpapi/handler.go:948 | serving a body, with other requests between any two reads, releases its slot and delivers all the bytes with a clean end iff the upstream's chunks end cleanly |
| `Downloads.Service.Download` | internal/attachments/service.go:106-250 | success iff the request is admissible, a slot was free, every check passed and the audit was written, and then the body owns the slot; an inadmissible request acquires and records nothing; every other failure releases the slot and closes an opened body; the audit says which |
| `Downloads.Service.PermitsIff` | internal/attachments/service.go:136-233 | what a download needs in terms of the approval's participants and attachments, the link, the body and the sizes, and the error when the first of these is missing |
| `Downloads.Service.Inadmissible` | internal/attachments/service.go:310-326 | a request is turned away iff its user is incomplete, its instance ID invalid, or its request or file ID blank, with the source's error |
| `Downloads.Service.Refuse` | internal/attachments/service.go:277-308 | a refusal closes what was opened, records the cause and releases the slot |
| `DownloadRuns.SlotsAreConserved` | internal/attachments/service.go:382-400 | after any events of any number of downloads a user's counter is the number of its running calls and unreleased bodies, within the limit, with no counter at zero |
| `DownloadRuns.EachSlotIsReleasedOnce` | internal/attachments/service.go:434-456 | a slot is given back exactly once, however often an ended body is read or closed again |
| `DownloadRuns.RefusedIffFull` | internal/attachments/service.go:382-388 | a call is refused iff its user has as many calls and bodies as the limit allows |
| `DownloadRuns.LimiterIsConserved` | internal/attachments/service.go:369-400 | on the limiter object after any such run, a user's counter is the number of its running calls and unreleased bodies, and the slots held are theirs |
| `DownloadRuns.NewLimiter` | internal/attachments/service.go:375-380 | a new limiter is where the empty run is |
| `DownloadRuns.LinkedLonger` | internal/attachments/service.go:369-400 | the events of single operations compose to one run |
| `DownloadRuns.BeginDownload` | internal/attachments/service.go:124-135 | acquiring on the limiter object is one event of the run, and every held slot belongs to one download |
| `DownloadRuns.CarryDownload` | internal/attachments/service.go:136-250 | the rest of a call is one event: it fails and gives its slot back, or hands over a body that owns it, iff every check passed and the audit was written |
| `DownloadRuns.ReadBody` | internal/attachments/service.go:440-446 | each read of a body, also of one that has ended, is one event of the run |
| `DownloadRuns.CloseBody` | internal/attachments/service.go:448-456 | each close, first or repeated, is one event of the run |
| `Approvals.Approval.FindAttachment` | internal/domain/approval.go:77-87 | finds the attachment with a non-empty ID that no other with that ID precedes, or there is none |
| `Approvals.WhoHasAccess` | internal/domain/approval.go:62-75 | administrators, originator, approvers, those copied in and those with a task have access, and nobody without a user ID |
| `Approvals.WhatMatches` | internal/approvals/service.go:630-651 | an approval matches iff the lower-case keyword occurs in its lower-case business ID, title or a form text |
| `Catalog.FetchVisibleCatalog` | internal/approvals/catalog.go:113-179 | succeeds iff the pages form a complete listing within the limits, with the sorted catalogue of that listing |
| `Catalog.LoadPage` | internal/approvals/catalog.go:120-162 | one page is accepted iff it is within the limits and all its templates are acceptable |
| `Catalog.LessIsTotal` | internal/approvals/catalog.go:226-236 | the comparator is a strict total order on categories with distinct identifiers |
| `Catalog.SameSetSameCatalogue` | internal/approvals/catalog.go:139-165 | any order, split into pages and repetition of the same templates gives the same catalogue, when duplicates agree |
| `Catalog.CatalogueShape` | internal/approvals/catalog.go:132-165 | a loaded catalogue is sorted, has distinct identifiers and at most 5000 entries |
| `Catalog.CatalogueHasEveryCode` | internal/approvals/catalog.go:150-162 | every listed process code is in the catalogue |
| `Catalog.CatalogueIsListing` | internal/approvals/catalog.go:139-162 | the catalogue has exactly one category for the first template of each process code, with its trimmed name and directory |
| `Catalog.CatalogueOrder` | internal/approvals/catalog.go:226-236 | directories are in order, names within a directory, identifiers within a name |
| `Catalog.ProperListingIsComplete` | internal/approvals/catalog.go:113-179 | a listing of at most 5000 proper templates on at most 100 linked pages is loaded |
| `Catalog.CompleteIsProper` | internal/approvals/catalog.go:113-179 | only such listings are loaded: at most 100 linked pages, each of at most 100 proper templates |
| `Ordering.SortIgnoresOrder` | internal/approvals/catalog.go:226-236 | sorting by a strict total order depends on the set of values only |
| `CatalogCache.Cache.Cached` | internal/approvals/catalog.go:67-78 | serves exactly the unexpired entry of the user |
| `CatalogCache.Cache.Store` | internal/approvals/catalog.go:80-111 | drops expired entries, evicts an entry with the least load time only when full, stores the new one |
| `CatalogCache.Cache.FindOldest` | internal/approvals/catalog.go:94-101 | the scan finds an entry with the least load time |
| `CatalogCache.CacheIsBounded` | internal/approvals/catalog.go:80-111 | never more than 1024 entries, in whatever order loads finish |
| `CatalogCache.OnlyTheOldestIsEvicted` | internal/approvals/catalog.go:80-111 | an unexpired entry is dropped only for want of room, and only one loaded no later than all that stay |
| `CatalogCache.ServedFromOwnFetch` | internal/approvals/catalog.go:24-65 | every served catalogue is what a fetch for that same user, started less than a minute before, gave |
| `CatalogCache.FetchesAreAnswers` | internal/approvals/catalog.go:34-50 | those fetches are answers the upstream gave to a load of that user |
| `CatalogCache.SharersAgree` | internal/approvals/catalog.go:51-64 | callers that shared a load are told the same |
| `CatalogCache.OneLoadPerUser` | internal/approvals/catalog.go:34-50 | a user never has two loads running |
| `CatalogCache.FetchServesForAMinute` | internal/approvals/catalog.go:24-111 | what a load fetched is served at once to every call of that user for a minute from the start of the load, and no longer, while it is not loaded anew and the cache has room |
| `CatalogCache.WaitersGetTheAnswer` | internal/approvals/catalog.go:51-64 | whoever waits for a load is told what the upstream answered to it |
| `CategoryPages.FirstReply` | internal/approvals/service.go:260-345 | when a first request or a resumed cursor is accepted, and the page it then gets |
| `CategoryPages.NextReply` | internal/approvals/service.go:282-309 | a following page is served iff the matching categories are those of the cursor and it has not expired |
| `CategoryPages.CursorAcceptedIff` | internal/approvals/service.go:282-309 | a cursor is accepted iff it is its own user's, comes without a keyword, is live, and was written for the categories that match now |
| `CategoryPages.PageIsSlice` | internal/approvals/service.go:310-345 | a page has the next hundred categories with their own names, or as many as are left, and a cursor iff more are left |
| `CategoryPages.MatchesAreListed` | internal/approvals/catalog.go:206-224 | listed are exactly the categories with the lower-case keyword in identifier, name or directory |
| `CategoryPages.MyCategories` | skills/dingtalk-oa-attachment/scripts/dingtalk_oa_attachment.py:817-932 | the client's loop succeeds iff every request found the catalogue the walk started with, and reports it in order without gap, repetition or mixture, with exact totals |
| `CategoryPages.TakeReply` | skills/dingtalk-oa-attachment/scripts/dingtalk_oa_attachment.py:868-920 | one reply of an unchanged walk is always taken: no identifier, total or cursor check fails |
| `CategoryPages.AllMyCategories` | skills/dingtalk-oa-attachment/scripts/dingtalk_oa_attachment.py:817-932 | the `--all` loop over a broker that reloads the same templates, in any order and split, ends complete with exactly the matching sorted categories, everything scanned, in max(1, n/100 rounded up) pages, at most 50 |
| `CategoryPages.ReloadedWalk` | internal/approvals/service.go:260-345 | such reloads never break the walk |
| `CategoryPages.ResumedWalk` | internal/approvals/service.go:332-343 | a walk cut short and resumed from its cursor reads what one walk reads |
| `CategoryPages.ReloadIsUnchanged` | internal/approvals/catalog.go:113-179 | reloading the same templates in another order or split keeps the walk going |
| `Cursor.Base64RoundTrip` | internal/approvals/cursor.go:155-168 | decoding undoes encoding for every byte string, with the exact encoded length |
| `Cursor.Alphabet` | internal/approvals/cursor.go:155-168 | the alphabet is that of RFC 4648 for URLs |
| `Cursor.DigitsAreBigEndian` | internal/approvals/cursor.go:155-168 | digits are the bits of the bytes in order, the last ones filled with zeros |
| `Cursor.CanonicalIffEncoded` | internal/approvals/cursor.go:168-172 | of the texts that decode to given bytes exactly the encoder's is canonical |
| `Cursor.NotOnlyCanonicalTextsAreAccepted` | internal/approvals/cursor.go:168-172 | line ends and spare bits are accepted |
| `Cursor.PayloadRoundTrip` | internal/approvals/cursor.go:146-178 | a payload encodes iff it has at most 8192 bytes; its text stays under the limit and decodes to it iff it is not empty |
| `Cursor.AcceptedIffSigned` | internal/approvals/cursor.go:160-178 | exactly what decoding accepts; nothing without the payload's own signature |
| `SearchChain.StateRoundTrip` | internal/approvals/cursor.go:75-110 | decoding at a time undoes encoding iff the state is well formed and live |
| `SearchChain.FirstPageAcceptedIff` | internal/approvals/service.go:386-417 | a first page is accepted iff its keyword has at most 100 characters and its bounds are in order, at most 120 days apart, start within 365 days and end at most a minute from now; what its state then holds |
| `SearchChain.CursorServesItsSearch` | internal/approvals/service.go:347-386 | a cursor is accepted only for its user and category as it is now, alone in its request, and from a minute before to an hour after its issue second |
| `SearchChain.RefusedAsInvalid` | internal/approvals/service.go:347-417 | whatever is refused is refused as invalid input |
| `SearchChain.SecondPageAcceptedIff` | internal/approvals/service.go:347-417 | after an accepted first page, its continuation is accepted iff the bounds survive millisecond and second truncation and the cursor is live |
| `SearchChain.LaterPageAcceptedIff` | internal/approvals/service.go:353-386 | every further page is accepted iff the cursor is live |
| `SearchChain.EarlyEndSurvives` | internal/approvals/service.go:698-721 | bounds ending 59 s after now at the latest, starting within 365 days of the encoding, survive |
| `SearchChain.LateEndIsLost` | internal/approvals/service.go:714-719 | an end at the full clock skew is accepted first and refused later |
| `SearchChain.TruncatedRange` | internal/approvals/service.go:379-385 | validating truncated bounds against the issue second, in terms of the original bounds |
| `SearchChain.LiveForAnHour` | internal/approvals/cursor.go:92-103 | a cursor is live until exactly one hour after its issue second |
| `SearchChain.ChainContinuesIff` | internal/approvals/service.go:347-417 | after any chain of pages the next continuation is accepted, on the state its cursor was written from, iff the first page's bounds survive truncation and its issue second is live |
| `SearchChain.ChainLastsAnHour` | internal/approvals/service.go:347-417 | with bounds ending 59 s after now at the latest every continuation asked for within the hour is accepted |
| `SearchChain.ChainKeepsItsSearch` | internal/approvals/service.go:347-417 | subject, category, revision, keyword, window and issue time are constant along every chain of pages |
| `Candidates.QuotaIsFair` | internal/approvals/service.go:443-445 | each active source is asked for the even share, rounded down or up |
| `Candidates.QuotasAddUp` | internal/approvals/service.go:443-445 | the quotas add up to the page limit |
| `Candidates.QuotaPositiveIff` | internal/approvals/service.go:443-445 | every source is asked for something iff the limit is at least the number of active sources |
| `Candidates.ListCandidates` | internal/approvals/service.go:419-492 | a page succeeds iff every active source answers properly within its quota; sources move on, identifiers are kept once; otherwise the error is that of the first source that does not |
| `Candidates.TakePage` | internal/approvals/service.go:446-489 | one source's answer is accepted iff it fits its quota and all identifiers are valid |
| `CandidateWalk.PageIsBounded` | internal/approvals/service.go:419-492 | candidates of a page are distinct and at most the limit |
| `CandidateWalk.FoundIffGiven` | internal/approvals/service.go:470-489 | an identifier is a candidate iff some active source's page names it |
| `CandidateWalk.FoundFromSource` | internal/approvals/service.go:470-489 | a candidate is listed under the first source whose page names it |
| `CandidateWalk.PagesListWhatIsPassed` | internal/approvals/service.go:465-469 | the first k pages together list exactly what lies before the sources' tokens |
| `CandidateWalk.WalkEnds` | internal/dingtalk/client.go:484-489 | whatever the upstream answers, following cursors ends: tokens that do not advance are refused, so after as many successful pages as there are tokens no source remains |
| `CandidateWalk.WalkListsEverything` | internal/approvals/service.go:419-492 | when no source remains, the pages together list exactly the upstream's identifiers |
| `CandidateWalk.ServedWalkIsComplete` | internal/approvals/service.go:419-492 | over an upstream that serves its listing every page succeeds, the walk ends, and its pages list exactly the upstream's identifiers |
| `SearchFanout.ConcurrentEqualsSequential` | internal/approvals/service.go:494-580 | under every schedule a successful search equals the sequential filter, no task was dropped, every item and every denial has its audit record |
| `SearchFanout.FailsIffSomeTaskFailed` | internal/approvals/service.go:513-525 | a finished search fails iff some task failed; a cancelled sibling is never silently missing |
| `SearchFanout.FailsIffSomethingFailed` | internal/approvals/service.go:494-580 | a finished search fails iff a fetch or an audit record failed; an approval that is not for the user never makes it fail |
| `SearchFanout.FoundIffSearched` | internal/approvals/service.go:526-580 | a successful search has found exactly the candidates' approvals that have attachments, that the user takes part in or administers, and that mention the keyword |
| `SearchFanout.AuditsAreTrue` | internal/approvals/service.go:540-580 | allowed access is on record only for approvals that the search is for, also of searches that fail |
| `SearchFanout.NewerIsTotal` | internal/approvals/service.go:231-244 | the result comparator is a strict total order on items with distinct instance IDs |
| `SearchFanout.PageIsDeterministic` | internal/approvals/service.go:220-244 | the sorted page depends neither on schedules nor on the order of the candidates; it has later times first, unreadable times last, ties by text and identifier descending |
| `HttpRateLimiter.RateLimiter.Allow` | internal/httpapi/rate_limiter.go:36-58 | one decision in place; the table keeps at most 4096 entries and the overflow bucket |
| `HttpRateLimiter.RateLimiter.Prune` | internal/httpapi/rate_limiter.go:60-66 | deletes exactly the idle entries except the overflow bucket |
| `HttpRateLimiter.FewerThanTwiceTheLimit` | internal/httpapi/rate_limiter.go:36-66 | any half-open minute admits fewer than twice the limit on a bucket, across prunes and re-created entries |
| `HttpRateLimiter.RefusedOnlyWhenFull` | internal/httpapi/rate_limiter.go:36-58 | a request is refused only when its bucket admitted the full limit within the last minute |
| `HttpRateLimiter.RefusedForOwnRequests` | internal/httpapi/rate_limiter.go:36-58 | while all addresses fit the table, a refused address was itself admitted as often as the limit says within the last minute |
| `HttpRateLimiter.AddressesAreSeparate` | internal/httpapi/rate_limiter.go:40-42 | while all addresses fit the table, every decision is counted under the address it was made for |
| `HttpRateLimiter.TheBoundIsReached` | internal/httpapi/rate_limiter.go:36-66 | a run that reaches the bound |
| `HttpPruning.PruningTellsIff` | internal/httpapi/rate_limiter.go:36-66 | on a monotone clock the decisions and buckets differ from those of a limiter that never prunes iff some request comes from an address new to that limiter's full table after a prune forgot one of its idle entries |
| `HttpPruning.PruningKeepsDecisions` | internal/httpapi/rate_limiter.go:52-66 | so they never differ while all addresses fit the table |
| `HttpPruning.FullTableBreaksIt` | internal/httpapi/rate_limiter.go:40-42 | a run in which a request is admitted only because of a prune |
| `SearchRateLimiter.SearchLimiter.Allow` | internal/approvals/limiter.go:30-50 | one decision in place; a refused request stores nothing |
| `SearchRateLimiter.SearchLimiter.Prune` | internal/approvals/limiter.go:52-59 | deletes exactly the finished windows |
| `SearchRateLimiter.PruningIsExact` | internal/approvals/limiter.go:30-59 | on a monotone clock the answers equal those of a limiter that decides from the complete history |
| `SearchRateLimiter.EachWindowWithinTheLimit` | internal/approvals/limiter.go:30-50 | a user's windows are a minute long and disjoint, hold every admitted request, and admit at most the limit each |
| `SearchRateLimiter.RefusedOnlyWhenFull` | internal/approvals/limiter.go:30-50 | a user is refused only after as many admitted searches as the limit says within the last minute |

## Left out

- SQL, connection pools, contexts, timers, HTTP routing, HTML, cookies, metrics, logging, configuration, server shutdown and migrations: plumbing around the modelled steps.
- HMAC, SHA-256, JSON and random generators: opaque injective functions and fresh values, as said above; the base64 layer is written out.
- URL, IP-range, file-name and address checks, and the normalisation of rate-limit keys to network prefixes: leaf checks. `NormalizeProcessInstanceID` and lower-casing are parameters.
- DingTalk SDK calls: their results are arbitrary; only the token and quota checks of the instance-ID list are modelled.
- Login and logout on a credential file while it is being refreshed: the refresh invariant does not hold across them. The client's file permission checks and its download file publishing are file-system effects.
- CredentialClient.Machine.AuthenticatedOpen: the last request is answered by the session lookup of the broker, not by the operation it was made for; that the answer to a new session is a success is promised when nobody else acts during the call, since others may revoke it.
- AuthService.Service.CompleteAuthorization: the steps that ask the identity provider are one verified answer; what they cost in time is part of the adversary's clock.
- AuthService.Service.RejectClaimedAuthorization: says nothing about a row whose rejection failed; it may have been denied all the same.
- Downloads.Service.Download: other requests take their turns after the slot is acquired and around the audit record; the checks in between touch no shared state. `DownloadRuns` has every order of acquires and releases.
- Streams.ExpectedSizeReader.Read: after a fault it promises no more than that delivered bytes stay a prefix within the size; a consumer that goes on after the size was exceeded can still meet an end of file.
- Streams.Drain: the consumer makes a bounded number of reads, since an upstream may return nothing forever; which fault ends a stream that is not clean is said only as far as `Explained` goes.
- CatalogCache.ServedFromOwnFetch: storing a result and forgetting its load are one event, and the moment a fetch starts is the time read just before it.
- CategoryPages.MyCategories: the first request stands before the loop instead of in its first iteration; the JSON shape checks of a reply are carried by types. Cursors must come from a clock later than one second after 1970.
- PruneInvisible.PruningIsInvisible: kinds of errors may differ; revocations, and creations under the code of an authorization that has expired, are excluded, as the exact conditions say.
- CommitOutcomes.OneAcknowledgedClaim: for claims confirmed by the second look there may be two winners of a claim, though never two completions.
- HttpRateLimiter.FewerThanTwiceTheLimit: speaks of a bucket; a client that is sent to the overflow bucket while the table is full shares that bucket's bound.
- The limit that keeps at most a few approval requests in flight: every schedule is allowed, so the bounded ones are among them. Audit timestamps and request IDs are not recorded.
- Category descriptions and process-code lists longer than one: a visible category has no description and exactly one source.
