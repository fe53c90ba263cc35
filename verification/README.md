# Verified model of the tunnel relay

A Dafny model of the relay's protocols, with proofs. Each module follows one part of the server (or
of its browser client) and keeps that part's branches, constants and error cases. Where the server
updates objects in place the model has classes, and their methods are proved against functions on
values; the main results are then theorems about those functions over every run.

| file | models |
|---|---|
| `DeviceRegistry.dfy` | the desktop device table: registration, its two transaction halves, rename, revocation |
| `TunnelManager.dfy`, `TunnelAnswers.dfy` | the relay's `Manager`: two maps, live tunnels, credentials, cookie sessions; and what its lookups answer |
| `TunnelLifecycle.dfy`, `TunnelUptime.dfy` | handshakes, revocations, refreshes and disconnects in any interleaving, over all of the above; why a tunnel is closed, and why it stays |
| `PendingResources.dfy`, `PendingPushes.dfy` | a waiting request, its pushes, its timer and its temp files under two locks; what becomes of a push |
| `ShareTables.dfy`, `ShareFiles.dfy` | conversation shares in the database, and their file tree |
| `ShareCleanup.dfy` | one cleanup pass over both |
| `ShareLifecycle.dfy`, `ShareTiming.dfy`, `ShareUploads.dfy` | uploads, revocations, visits and passes in any interleaving, exactly how slow an upload may be, and what a timely one is worth |
| `LegacyMigration.dfy`, `SQLiteVersions.dfy` | the crash-restartable attachment migration and the schema walk around it |
| `SourceRefs.dfy`, `SnapshotValidator.dfy`, `UploadDecoder.dfy` | the checks on an uploaded conversation |
| `Framing.dfy` | length-prefixed frames over WebSocket messages |
| `RequestTable.dfy` | the pending requests of the browser's desktop session |
| `TrafficSeries.dfy` | traffic totals by hour, day and month |

`dafny verify dfyconfig.toml` checks everything.

## How to read it

- *Interleavings.* A handler is a thread with a program counter. A step is one SQL transaction or
  statement, one lock region, one rename or mkdir, or one call on a connection. A run is any sequence of steps.
- *Objects.* `View()` is the abstract value of an object; a method's contract equates the new view
  with a function of the old one. `Run` and the lemmas about it use the same functions.
- *Times* are whole nanoseconds. `ShareTables.DatabaseTime` is the server's rounding to microseconds.
- *Failures.* A step that can fail takes its outcome as a parameter (`dbFails`, `fails`, `stuck`), and in
  the migration every step may fail or be the last (`outages`) and the read of the old table may end
  early unnoticed (`readEnds`); the results hold for all of them, or name what such a failure costs.
- SHA-256 is a function parameter `sha`; no result needs it to be injective. Ids are fresh and the
  device key is a pair, so injective. Transactions and renames are atomic; a failed commit has not happened.

## What came out

- The guarantee that a readable attachment has its file is not unconditional. It holds exactly while no
  upload leaves its stage alone for more than an hour, up to the rename, and rows follow within an hour
  of the rename (`ShareTiming.TimingIsExact`). Beyond that a cleanup pass takes the files: from the stage
  while it is being uploaded (`SlowStage`), or from the share before it has rows (`SlowRows`). The server
  sets no limit on how long an upload may take.
- A failing last sync of a commit is answered with an error although the files are in place; the
  handler then leaves the share directory to the next sweep.
- `migrateSQLite` does not end on a file at version 2 whose legacy table is gone
  (`SQLiteVersions.EndlessWalk`, `WalkEnds`). No cut-off start of the server itself leads there.
- The legacy migration can lose rows. Its row loop ends on a read error as on the last row and the
  error is never asked for, so a read that fails midway counts as complete: the rows behind the failure
  are dropped with the table, and the run reports success. `LegacyMigration.NothingIsLost` therefore holds
  when the dropping run read the table to its end; `DroppedMeansMigrated` says exactly what survives
  otherwise, `AllMigratedIffAllRead` that nothing else matters on a first run, `UnreadRowIsLost` is a run.
- A legacy row whose key is already taken by a different metadata row loses its metadata in the
  migration: `LegacyMigration.DroppedMeansMigrated` has the exact condition, `ConflictIsMet` a run.
- `WriteWSFrame` has no size limit and `ReadWSFrame` has one, so an oversized payload is written but
  refused (`Framing.FrameRoundTrip`); the JSON writer refuses what its reader would.
- A send that reuses the id of a request still waiting loses that request for every later close, and
  nothing else does (`RequestTable.ClosableIffIdsFree`).
- A new socket's session also ends when an older socket of the same object reports its close
  (`RequestTable.OlderSocketEndsTheSession`); the pending requests are then rejected all the same.

## Model

| member | source | states |
|---|---|---|
| DeviceRegistry.DeviceStore.RegisterDesktopDevice | internal/store/store.go:383-464 | One undisturbed registration leaves the table and answers as the two transaction halves say: a known row is refreshed or refused, an unknown one is inserted or meets a host conflict; a lost insert never shows as a duplicate key |
| DeviceRegistry.DeviceStore.RegisterWithRetry | internal/desktop/server.go:260-285 | The retry loop ends in a host conflict exactly when the device is unknown and all eight drawn hosts were held; then nothing changed; a known device is settled by its first attempt, an unknown one gets the first free host |
| DeviceRegistry.DeviceStore.RevokeAccountDesktop | internal/store/account_devices.go:37-51 | Only an active device is revoked, only its revocation time changes, and the answer says whether there was one |
| DeviceRegistry.DeviceStore.RenameAccountDesktop | internal/store/account_devices.go:18-35 | Only a valid name and an active device rename, and nothing else changes |
| DeviceRegistry.RestorationNeedsLaterLogin | internal/store/store.go:383-464 | Over every interleaved run a device revoked at r stays revoked at r, unless some step was the locking half of a registration of that device by a login started strictly after r |
| DeviceRegistry.LaterLoginRestores | internal/store/store.go:438-460 | A step makes a revoked device active again if and only if it is such a registration |
| DeviceRegistry.RegistrationKeepsIdentity | internal/store/store.go:383-464 | Over every run, lost first inserts included, rows never disappear, public hosts stay unique and fixed, and a non-empty name changes only by a rename |
| DeviceRegistry.AnswerIsCurrent | internal/store/store.go:414-464 | When a registration answers with a device, by refresh, own insert or the re-read after a lost insert, that very row is stored and active at that moment |
| DeviceRegistry.ReportsHoldOnEveryRun | internal/store/store.go:383-464 | From an idle system every successful answer ever given names a stored device with the host that was answered, and no thread ends in an internal outcome |
| DeviceRegistry.StepKeepsHostsUnique | internal/store/store.go:948-992 | No step gives two devices one public host, although the host check sees active rows only |
| DeviceRegistry.KnownDeviceIsAnswered | internal/store/store.go:438-464 | A registration of a known device is refused and changes nothing exactly if its login is no later than the revocation; any other answers the stored row, now active, with its old host and with its old name if it had one; no other row changes |
| DeviceRegistry.UnknownDeviceIsInserted | internal/store/store.go:414-437 | A device still unknown is stored and answered under its name and host exactly if no route and no device holds the host; a host held by a revoked device only leads to the second look, any other conflict to the next of eight attempts |
| DeviceRegistry.RevocationRefusesOldLogins | internal/store/account_devices.go:37-51 | A revocation stores its own time and nothing else, and on every continuation without a later login every login up to that time is refused |
| TunnelManager.Manager.Install | internal/proxy/manager.go:115-126 | The locked part of SetActive: the new tunnel takes its key, the replaced session loses its entry and is handed back |
| TunnelManager.Manager.SetActive | internal/proxy/manager.go:115-134 | Registering replaces the key's tunnel in both maps and closes the replaced one, and changes no other tunnel |
| TunnelManager.Manager.ClearSession | internal/proxy/manager.go:136-147 | The new state is the specified clearing of exactly that session |
| TunnelManager.Manager.CloseSession | internal/proxy/manager.go:149-158 | Closes the specified target and nothing else; an error exactly when there is none |
| TunnelManager.Manager.ActiveFor | internal/proxy/manager.go:226-240 | Finds a key's tunnel exactly if it is registered and open |
| TunnelManager.Manager.UpdatePlatformCredential | internal/proxy/manager.go:60-80 | Succeeds exactly on the acceptance condition and then replaces the credential of the named live tunnel only |
| TunnelManager.Manager.PlatformCredentialFor | internal/proxy/manager.go:82-90 | Answers the live tunnel's credential exactly if owner and desktop agree and it is unexpired |
| TunnelManager.Manager.CreateMobileWebAppSession | internal/proxy/mobile_account.go:38-67 | The purge loop and the insert leave exactly the unexpired sessions plus the new one, refused at 64, expiring with the earlier of credential and principal |
| TunnelManager.Manager.MobileWebAppSessionFor | internal/proxy/mobile_account.go:69-78 | A cookie resolves exactly on a live tunnel of its owner before its expiry |
| TunnelManager.Manager.RevokeMobileWebAppSession | internal/proxy/mobile_account.go:80-86 | Removes that secret of that key's tunnel and nothing else |
| TunnelManager.ApplyKeepsInverses | internal/proxy/manager.go:115-158 | Every lock region keeps `active` and `keyBySession` exact inverses |
| TunnelManager.ApplyKeepsCookies | internal/proxy/mobile_account.go:38-86 | Every lock region keeps at most 64 cookie sessions, none outliving the tunnel's credential |
| TunnelManager.RunKeepsValid | internal/proxy/manager.go:60-158 | Both hold on every run with fresh session ids |
| TunnelManager.CredentialsOnlyMoveForward | internal/proxy/manager.go:60-80 | On every run a tunnel's identity and platform device never change, closing is final and its credential expiry never decreases |
| TunnelManager.ResolvingCookieHasLiveCredential | internal/proxy/mobile_account.go:38-78 | In every reachable state a cookie that resolves at a time has a live tunnel with at most 64 sessions whose current credential is unexpired at that time |
| TunnelManager.GoneStaysGone | internal/proxy/manager.go:115-147 | A tunnel once replaced or cleared never becomes the active one of any key again |
| TunnelManager.ReplacementDropsOldSecrets | internal/proxy/manager.go:115-134 | At the moment of a replacement no old cookie resolves under the key and the only credential left is the one the new connection brought |
| TunnelManager.ClearIsExact | internal/proxy/manager.go:136-147 | Clearing takes out exactly that session, and nothing when it was replaced before; under the keys that are left every cookie and credential resolves as before, under the one that is gone none does |
| TunnelManager.CookiesAreIssued | internal/proxy/mobile_account.go:38-67 | Over every run a cookie that a tunnel holds was issued to that very tunnel by some step |
| TunnelManager.GoneSecretsNeverResolve | internal/proxy/manager.go:115-147 | After a replacement or a clearing no cookie ever issued to the old tunnel resolves again, under any key, owner or time and on every continuation with fresh secrets, and a credential that resolves is that of another open tunnel |
| TunnelManager.CloseTargetIsTheSessionNamed | internal/proxy/manager.go:149-158 | The session closed is the one named, exactly if it is still registered and open |
| TunnelAnswers.AcceptedRefreshIsServed | internal/proxy/manager.go:60-90 | After an accepted refresh the lookup answers that very credential at every time before its expiry and none after, on every continuation that does not close, clear or replace the tunnel or refresh it again |
| TunnelAnswers.FirstCredentialIsServed | internal/proxy/manager.go:82-134 | The same for the credential a new tunnel brings, if any |
| TunnelAnswers.RefreshIsAcceptedExactly | internal/proxy/manager.go:60-80 | A refresh is accepted exactly if it is fresh, names the live session of its owner and desktop, and at no time cuts short a credential the lookup answers or changes its platform device |
| TunnelAnswers.RefreshIsExact | internal/proxy/manager.go:60-80 | A refused refresh changes no answer; an accepted one changes no cookie, no live tunnel and no other key |
| TunnelAnswers.CreatedCookieResolves | internal/proxy/mobile_account.go:38-78 | A created cookie session resolves to its credential's token until it expires, on every continuation that does not end it, through refreshes, purges and other sessions; it expires with the credential or the principal, whichever is earlier |
| TunnelAnswers.CookieIsCreatedExactly | internal/proxy/mobile_account.go:38-67 | A cookie session is created exactly if the token is that of the credential answered now and fewer than 64 cookies resolve |
| TunnelAnswers.CookieCreationIsExact | internal/proxy/mobile_account.go:38-67 | From a creation on, made or refused, no other cookie and no credential answers differently |
| TunnelAnswers.CookieRevocationIsExact | internal/proxy/mobile_account.go:80-86 | A revoked cookie resolves no more and every other one as before |
| TunnelLifecycle.StepsAreManagerOps | internal/proxy/relay.go:243-284 | Every step of every handler changes the Manager by nothing or by one enabled lock region, so all facts on Manager runs hold here |
| TunnelLifecycle.StepKeepsOwing | internal/proxy/relay.go:267-275 | A handler that owes the close of a revoked device's open tunnel still owes it after any step |
| TunnelLifecycle.StepKeepsOpenIsActive | internal/proxy/manager.go:115-134 | An open tunnel is the active one of its key or its replacer is about to close it, after every step |
| TunnelLifecycle.StepKeepsRevokedIsOwed | internal/desktop/account_routes.go:135-161 | The race invariant survives every step: an open active tunnel of an inactive device has someone owing its close |
| TunnelLifecycle.RunKeepsInv | internal/proxy/relay.go:202-284 | All invariants on every interleaving |
| TunnelLifecycle.NoRevokedTunnelAtRest | internal/proxy/relay.go:202-284 | In every interleaving, once no handler is mid-flight no open tunnel among all ever registered belongs to a device that is revoked or unknown, and each open one of a desktop is the live one of its key |
| TunnelLifecycle.RevokedTunnelIsAlwaysOwed | internal/desktop/account_routes.go:135-161 | At any moment such a tunnel has a handshake owing its recheck or close, or a revocation or refresh owing a close of that very session |
| TunnelLifecycle.OneOpenSessionPerKey | internal/proxy/manager.go:115-134 | Once the SetActive calls have returned, each key has at most one open session among all ever registered, and it is the active one |
| TunnelLifecycle.CookieNeedsLiveCredential | internal/proxy/mobile_account.go:69-78 | In every interleaving a cookie that resolves has a tunnel whose current credential is unexpired |
| TunnelUptime.EveryCloseHasAReason | internal/proxy/relay.go:243-284 | In every interleaving, at rest or not, a registered session that is not the live tunnel of its key has a reason among the steps: its disconnect, a later registration under its key, a database error while its device is rechecked, or a revocation of its device after its id was given out or by a handler that then finds it |
| TunnelUptime.UndisturbedDesktopStaysLive | internal/proxy/relay.go:267-284 | A desktop of an active device that connects and has no such reason is served as the live tunnel of its key once its handshake rests |
| TunnelUptime.HandshakeGoesLive | internal/proxy/relay.go:202-284 | From every reachable state three steps of the handler lead there, with the credential it brought, and close the tunnel it replaces |
| TunnelUptime.RevocationTakesEffect | internal/desktop/account_routes.go:135-161 | From every reachable state an uninterrupted revocation stores its time, leaves the device without a live tunnel and touches no other row or tunnel |
| TunnelUptime.RefreshTakesEffect | internal/desktop/server.go:186-196 | From every reachable state an uninterrupted refresh with an acceptable credential puts it in place and keeps the tunnel |
| TunnelUptime.DisconnectClears | internal/proxy/relay.go:276-284 | After a disconnect the next step of the serving handler takes the session out of both maps and touches no other live tunnel |
| PendingResources.PendingResource.Begin | internal/proxy/resource.go:335-346 | A push may start exactly if the item is not removed, not completed and not being uploaded to; it is then marked, and otherwise nothing changes |
| PendingResources.PendingResource.End | internal/proxy/resource.go:349-373 | A saved file is kept exactly if the item was not removed meanwhile; then the push completes and the ready channel is closed if it was not before |
| PendingResources.PendingResource.Take | internal/proxy/resource.go:94-100 | The item is marked removed and its file, if any, is handed to the caller and forgotten |
| PendingResources.ResourceStore.AddItem | internal/proxy/resource.go:70-80 | Adds the item under its id |
| PendingResources.ResourceStore.Remove | internal/proxy/resource.go:82-104 | Exactly the named item leaves the map, is marked and gives up its file; a second removal finds nothing; other items are untouched |
| PendingResources.ResourceStore.GetForPush | internal/proxy/resource.go:106-137 | Finds the item exactly if it is stored, unexpired and the ticket agrees; an expired one is removed on the way |
| PendingResources.Run | internal/proxy/resource.go:70-374 | Every interleaving of pushes, removals and expired lookups keeps the ownership invariant |
| PendingResources.ReadyOnce | internal/proxy/resource.go:335-374 | On every run the ready channel closes at most once and at most one push completes; until removal the waiting request then finds the pushed file |
| PendingResources.DeletedOnceOrOwned | internal/proxy/resource.go:82-104 | On every run a temp file is deleted at most once, and is not deleted exactly while a thread in flight or an unremoved item is responsible for it |
| PendingResources.NothingLeftBehind | internal/proxy/resource.go:335-374 | Once an item's own pushes and removals have returned, whatever goes on elsewhere, it is marked removed exactly if it left the map, and of all files pushed to it only the one it still serves is left, each other one deleted once |
| PendingPushes.UploadingIffInFlight | internal/proxy/resource.go:335-373 | On every run an item is marked as being uploaded to if and only if some push is in flight on it |
| PendingPushes.PushStartsExactly | internal/proxy/resource.go:335-346 | A push past the lookup is refused exactly if the item is removed, another push completed or another is in flight; otherwise it starts to save |
| PendingPushes.FreeItemTakesAPush | internal/proxy/resource.go:106-137 | A push with the ticket on a stored, unexpired item that no push completed and none is uploading to gets to save, however many failed before |
| PendingPushes.SavedPushIsServed | internal/proxy/resource.go:335-373 | A push whose body is saved, on an item nobody removes, returns Accepted with its second step whatever others do in between; from then on the item serves its file and the file is not deleted |
| PendingPushes.FailedPushReturns | internal/proxy/resource.go:347-354 | A push whose body is not saved returns Failed with its next step, whatever others do |
| PendingPushes.TicketWasShown | internal/proxy/resource.go:106-137 | On every run an item that a push is let through to, or that a push completed, was shown its own ticket before its time |
| PendingPushes.RemovalRuns | internal/proxy/resource.go:82-137 | A removal, or a push that finds the item expired, takes it out of the map at once and for good, marks it with its first step and returns with its second, in every interleaving |
| ShareTables.ShareDB.CreateConversationShareWithResources | internal/store/conversation_shares.go:65-154 | Refuses exactly a missing owner, an expiry not after the creation, an expiring single-use share and a taken id, and otherwise stores share and rows together |
| ShareTables.ShareDB.AccessPublicConversationShare | internal/store/conversation_shares.go:205-258 | The access transaction: claim, re-entry or refusal, with the new tables |
| ShareTables.ShareDB.RevokeConversationShare | internal/store/conversation_shares.go:301-318 | Revokes only the owner's unrevoked share and changes nothing else |
| ShareTables.ShareDB.DeleteConversationShareResourceMetadata | internal/store/conversation_shares.go:360-363 | Removes the metadata rows of that share only |
| ShareTables.RoundingIsInvisible | internal/store/mysql.go:134 | Against a stored time it makes no difference whether the clock is rounded to microseconds |
| ShareTables.RunKeepsConsistent | internal/store/conversation_shares.go:65-363 | Every run of transactions keeps stored times rounded, single-use shares without expiry, and claims only on single-use shares |
| ShareTables.SharesAndClaimsArePermanent | internal/store/conversation_shares.go:205-318 | Over every run shares and claims stay as stored; only a missing revocation time is filled in |
| ShareTables.SuccessNeedsTheClaim | internal/store/conversation_shares.go:205-299 | Each success on a single-use share is the claim itself, which stores its hash for 30 minutes, or shows the stored hash before the claim expires |
| ShareTables.ClaimIsUnique | internal/store/conversation_shares.go:205-299 | Over every run a claimed single-use share is never claimed again and every later success presents the claiming hash within 30 minutes |
| ShareTables.ClaimHasAnAccess | internal/store/conversation_shares.go:205-258 | A claim row comes from a claiming access in the run and from no other transaction |
| ShareTables.SuccessTracesToTheClaim | internal/store/conversation_shares.go:205-299 | From tables without a claim, every success on a single-use share is the only claiming access of the run, or follows it, presents its hash and falls within 30 minutes of it |
| ShareTables.CreatedStays | internal/store/conversation_shares.go:116-149 | On every run a created share keeps owner, kind, rounded times and rows as it was created, is revoked exactly if its owner revoked it, and keeps its rows until they are forgotten |
| ShareTables.OrdinaryShareIsServed | internal/store/conversation_shares.go:205-299 | On every run a share created for any number of visits grants every access, and gives every row with its values, exactly while its owner has not revoked it and the clock is before its rounded expiry |
| ShareTables.SingleUseShareAwaitsItsVisitor | internal/store/conversation_shares.go:224-258 | Until a share created for single use was shown to somebody, the next access claims it exactly while it is not revoked and the new hash has its length, and no row is given |
| ShareTables.SingleUseShareServesItsVisitor | internal/store/conversation_shares.go:224-299 | The first granted access to such a share is the claim; every later access and read succeeds exactly while it is not revoked, with the hash drawn at that first access, and before its 30 minutes are over |
| ShareTables.OnlyTheOwnerRevokes | internal/store/conversation_shares.go:301-318 | A revocation succeeds exactly for the owner named at the creation, once; a taken id is never created again |
| ShareTables.SelectedIsRefusedForever | internal/store/conversation_shares.go:337-358 | A share selected for cleanup is refused to every page and attachment read at that or any later clock, after any further transactions |
| ShareTables.SelectionIsExact | internal/store/conversation_shares.go:337-358 | Among shares with metadata, selected and refused to everyone are the same |
| ShareFiles.Stage.Begin | internal/sharefiles/store.go:70-81 | A new empty stage; nothing else in the tree changes |
| ShareFiles.Stage.Write | internal/sharefiles/store.go:83-107 | Stores a body exactly if the name is controlled and new, the body fits and the disk takes it; each refusal has its own answer and leaves no file but the partial one a faulty disk keeps |
| ShareFiles.Stage.Commit | internal/sharefiles/store.go:109-132 | The share directory holds exactly the staged files, or the tree is as before; when only the last sync fails an error is returned although the files are in place and the stage is done; an existing share is never touched |
| ShareFiles.Stage.Abort | internal/sharefiles/store.go:134-140 | Removes the stage unless it was committed or aborted before |
| ShareFiles.FileStore.Delete | internal/sharefiles/store.go:184-189 | Removes that share's directory only, completely or, when it fails, down to a remnant; refuses an uncontrolled id |
| ShareFiles.FileStore.Verify | internal/sharefiles/store.go:142-182 | True exactly if the named file exists with that size and that hash, compared in lower case |
| ShareFiles.FileStore.CleanupOrphans | internal/sharefiles/store.go:191-196 | Without a failure exactly the old unclaimed entries go; a failure leaves more, some of it as a remnant, and never touches what had to stay |
| ShareFiles.FileStore.SweepStages | internal/sharefiles/store.go:198-221 | The loop leaves exactly the young stages, or stops at a removal that fails with every young stage untouched |
| ShareFiles.FileStore.SweepShares | internal/sharefiles/store.go:198-221 | The loop leaves exactly the claimed and the young shares, or stops at a removal that fails with all of these untouched |
| ShareCleanup.CleanupConversationShareResources | internal/desktop/conversation_share_cleanup.go:10-33 | A query that fails ends the pass before the deletions or before the sweep; otherwise exactly the selected and deletable shares lose their rows; what is not selected and has rows or is young keeps its directory; after a completed pass every directory left has metadata or is younger than an hour |
| ShareCleanup.DeleteSelected | internal/desktop/conversation_share_cleanup.go:19-27 | The loop over the selected shares: files before rows, all files of a deleted share gone, a failed share is skipped and keeps its rows, no other share is touched |
| ShareCleanup.PassIsComplete | internal/desktop/conversation_share_cleanup.go:10-33 | After a pass without failures nothing is selected any more, and the shares that keep their rows are exactly those not refused to everyone |
| ShareLifecycle.StepKeepsInv | internal/desktop/conversation_shares.go:46-128 | Every step of an upload, revocation, visit or pass keeps the invariant over both stores, removals taking files one by one from shares and stages alike |
| ShareLifecycle.RunKeepsInv | internal/desktop/conversation_shares.go:46-128 | The invariant on every run with a monotone clock and sufficient timing |
| ShareLifecycle.ReadableResourceHasItsFile | internal/desktop/conversation_shares.go:79-127 | In every such run an attachment that can be read now has its file with the recorded size and hash |
| ShareLifecycle.OnlyUnreadableSharesAreRemoved | internal/desktop/conversation_share_cleanup.go:10-33 | Whenever a thread is taking files from a share, through its directory or through the stage it came from, no attachment of that share can be read |
| ShareUploads.TimelyUploadGoesOn | internal/desktop/conversation_shares.go:46-128 | In every run with sufficient timing each step of an upload that has no fault of its own succeeds, whatever passes do beside it: a file counts with its length and hash, the commit puts exactly the counted files in place, the rows are inserted |
| ShareUploads.PublishedShareIsServed | internal/desktop/conversation_shares.go:46-128 | What such an upload published for any number of visits can be read, with its own values and a verifying file, at every later moment of every timely run, unless its owner asked to revoke it and before it expires |
| ShareUploads.FirstVisitorIsServed | internal/desktop/conversation_shares.go:236-321 | What it published for one visitor can be read with the hash drawn at the first visit and with no other, at every later moment of every timely run, for 30 minutes unless its owner asked to revoke it |
| ShareUploads.RunHasHistory | internal/desktop/conversation_shares.go:46-128 | Every timely run has the sequence of states these results speak of |
| ShareUploads.RevocationGoesThrough | internal/desktop/conversation_shares.go:208-234 | An uninterrupted revocation revokes now, takes directory and rows away and touches no other share |
| ShareUploads.PassGoesThrough | internal/desktop/conversation_share_cleanup.go:10-33 | A pass with nothing failing takes one share of its list after another, until all have lost directory and rows and no other share has |
| ShareTiming.TimingIsExact | internal/sharefiles/store.go:198-221 | For every bound on timing: all runs within it keep the guarantee if and only if it allows no gap of more than an hour between changes of a stage or from the last one to the rename, and no more than an hour from the mkdir or from the rename to the rows |
| ShareTiming.MkdirBoundIsExact | internal/desktop/conversation_shares.go:79-104 | With stages in time, rows within d of the mkdir are safe if and only if d is at most an hour |
| ShareTiming.SlowStage | internal/sharefiles/store.go:212-217 | For every longer bound on stages: a pass takes a file from an old stage, then the upload renames it and inserts its rows at once; the attachment can be read and its file is gone |
| ShareTiming.SlowRows | internal/sharefiles/store.go:198-221 | For every longer bound on the rows: a pass sweeps the share before they come, with the same loss |
| ShareTiming.SlowRename | internal/sharefiles/store.go:109-132 | A rename more than an hour after the mkdir loses the file too, with rows at once and no stage ever swept |
| LegacyMigration.Migration.Migrate | internal/store/conversation_share_migration.go:23-136 | However a run ends, the data changed only in the ways permitted for the rows it read; when the table is gone each row read whose key was free has its own name and type and the length and hash of its bytes; a read that ended early goes unnoticed: undisturbed the run then still succeeds and drops the table, exactly if what it read is intact, with controlled ids and a directory configured; the version moves to 3 exactly with the SQLite drop |
| LegacyMigration.Migration.ReadRows | internal/store/conversation_share_migration.go:28-44 | The row loop yields the first rows of the table, up to its end or to where the read fails, and reports success in both cases |
| LegacyMigration.Migration.GroupByShare | internal/store/conversation_share_migration.go:54-62 | Succeeds exactly if all rows are intact, and then holds every row under its share, once |
| LegacyMigration.Migration.PlaceRows | internal/store/conversation_share_migration.go:45-103 | The files of a run: on success all rows read are in place and each of their shares was kept or holds exactly their files; without rows no directory is needed; undisturbed it succeeds exactly on migratable rows |
| LegacyMigration.Migration.PlaceAll | internal/store/conversation_share_migration.go:63-103 | On success every row's bytes are in place and every share was kept or holds exactly its rows' files; other shares and stages are untouched however it ends |
| LegacyMigration.Migration.PlaceShare | internal/store/conversation_share_migration.go:68-102 | A share that verifies is not written again, any other ends as exactly the rows' bodies; undisturbed it succeeds exactly on controlled names |
| LegacyMigration.Migration.Fill | internal/store/conversation_share_migration.go:92-97 | The stage then holds exactly the rows' bodies |
| LegacyMigration.Migration.Commit | internal/sharefiles/store.go:109-132 | Five steps that may each fail or be the last; unless the process dies it is the commit of a stage with one failing step or none, and other shares are untouched in every case |
| LegacyMigration.Migration.Finish | internal/store/conversation_share_migration.go:105-136 | Drops the whole table whatever rows it is given; each intact row whose key was free gets its own name and type and the length and hash of its bytes; with the SQLite ending their metadata, the drop and the version appear together or not at all, with the MySQL ending the metadata may appear before the drop |
| LegacyMigration.InsertAllAt | internal/store/conversation_share_migration.go:110-121 | Ignoring inserts keep every old metadata row and add exactly the missing keys |
| LegacyMigration.InsertedIsDescribed | internal/store/conversation_share_migration.go:110-121 | After the inserts each intact row whose key was free has a metadata row with its own name and type and the length and hash of its bytes |
| LegacyMigration.MetadataDescribeTheRows | internal/store/conversation_share_migration.go:105-121 | At every point of any number of runs old metadata rows are unchanged, a row under a free key of the legacy table says the name, type, length and hash of the legacy row, and every row the dropping run read has one |
| LegacyMigration.InsertsAreIdempotent | internal/store/conversation_share_migration.go:110-121 | Inserting the rows again, in a run after the commit, changes nothing |
| LegacyMigration.InsertsJoin | internal/store/conversation_share_migration.go:110-121 | The inserts of two runs that read the table to different points come to those of the longer read |
| LegacyMigration.ManyRuns | internal/store/conversation_share_migration.go:23-136 | Over any number of cut-off, failed, short-read and repeated runs the metadata are the old ones plus the first rows of the table up to some point, and the table is whole or gone |
| LegacyMigration.DropIsExact | internal/store/conversation_share_migration.go:105-136 | In a dropping run a row read is migrated unless another metadata row held its key; a row not read is migrated if and only if it was before and the run kept the directory of its share |
| LegacyMigration.NothingIsLost | internal/store/conversation_share_migration.go:23-136 | At every point of any number of runs each legacy row is still in the table, or has both a verifying file and its metadata row, provided the run that drops the table has read it to its end |
| LegacyMigration.AllMigratedIffAllRead | internal/store/conversation_share_migration.go:33-44 | While no legacy row has metadata, the run that drops the table leaves all rows migrated if and only if it read the whole table |
| LegacyMigration.UnreadRowIsLost | internal/store/conversation_share_migration.go:33-44 | Such a loss: the read of a one-row table fails before its row, the table is dropped, nothing is written |
| LegacyMigration.DroppedMeansMigrated | internal/store/conversation_share_migration.go:110-136 | Over any number of runs, once the table is dropped: a row that the dropping run read is migrated if and only if no different metadata row held its key at the start, any other row if and only if it was migrated before that run and the run kept the directory of its share |
| LegacyMigration.ConflictIsMet | internal/store/conversation_share_migration.go:110-136 | A conflict over a key is met: one run reads a one-row table whose key another metadata row holds, drops the table and leaves the row unmigrated |
| SQLiteVersions.SQLiteFile.MigrateSQLite | internal/store/sqlite.go:66-155 | Terminates from every sound file; success means the complete version 4 schema; however it is cut, version 2 still comes with its legacy table and the data changed only as the rows read permit; undisturbed it ends as the two-round walk does, succeeding even on a short read |
| SQLiteVersions.SQLiteFile.MigrateResources | internal/store/sqlite.go:121-136 | The same for the way from version 2, through the legacy migration and once more around |
| SQLiteVersions.SQLiteFile.MigrateDesktopRevocation | internal/store/sqlite.go:157-193 | Adds the column and reaches version 4 exactly if the column was missing and all tables are there; otherwise nothing changes |
| SQLiteVersions.WalkEnds | internal/store/sqlite.go:66-155 | The recursion ends if and only if the file is not at version 2 without its legacy table, and then within two rounds |
| SQLiteVersions.EndlessWalk | internal/store/sqlite.go:121-136 | A file at version 2 without that table, on which no number of rounds ends |
| SQLiteVersions.WalkResult | internal/store/sqlite.go:66-193 | The walk ends well exactly from the upgradable files, then at the complete current schema; soundness is kept, and a bad end leaves the device table alone |
| SourceRefs.CanonicalChatSourceRef | internal/desktop/conversation_share_upload.go:246-276 | Accepts exactly the references meeting the declarative condition on their segments and all decoding layers |
| SourceRefs.SegmentIsCanonical | internal/desktop/conversation_share_upload.go:251-258 | The same for one segment |
| SourceRefs.SettlesClean | internal/desktop/conversation_share_upload.go:259-273 | The decoding loop answers whether there are at most five layers and all are clean |
| SourceRefs.PathUnescape | internal/desktop/conversation_share_upload.go:255-265 | Each decoding that changes the text strictly shortens it and never empties it |
| SourceRefs.EscapeRoundTrip | internal/desktop/conversation_share_upload.go:255-256 | Decoding the encoding of any byte string gives it back |
| SourceRefs.EncodingGrows | internal/desktop/conversation_share_upload.go:256 | A text is its own encoding exactly if every byte is one that section 3.3 of RFC 3986 lets a segment carry, other than the seven sub-delimiters Go encodes; any other byte takes three |
| SourceRefs.JoinSplit | internal/desktop/conversation_share_upload.go:247 | Splitting loses nothing and leaves no separator in a segment |
| SourceRefs.AcceptedStaysClean | internal/desktop/conversation_share_upload.go:246-276 | Every iterate of repeated decoding of every segment of an accepted reference is free of separators, control characters, dot segments and reserved names |
| SourceRefs.AcceptedSettles | internal/desktop/conversation_share_upload.go:259-273 | Acceptance never rests on the depth limit: within five decodings the text stops changing or stops decoding |
| SourceRefs.AcceptedIsCanonical | internal/desktop/conversation_share_upload.go:255-258 | Two accepted references with the same decoded segments are the same text |
| SnapshotValidator.ParseConversationSnapshotResources | internal/desktop/conversation_share_upload.go:162-244 | Accepts exactly the valid snapshots and indexes their attachments by id |
| SnapshotValidator.ScanAttachments | internal/desktop/conversation_share_upload.go:179-191 | Succeeds exactly on well-formed attachments with distinct ids and source references |
| SnapshotValidator.ScanOmissions | internal/desktop/conversation_share_upload.go:192-215 | Succeeds exactly on well-formed omissions whose identities are distinct and disjoint from the attachments' |
| SnapshotValidator.CheckMedia | internal/desktop/conversation_share_upload.go:216-227 | Media references only on HTML and only to media attachments or omissions |
| SnapshotValidator.CheckNode | internal/desktop/conversation_share_upload.go:230-240 | A node's references are distinct and known |
| SnapshotValidator.NodeReferenceResolvesOnce | internal/desktop/conversation_share_upload.go:228-242 | In a valid snapshot each node reference resolves to exactly one declaration |
| SnapshotValidator.MediaReferenceIsMedia | internal/desktop/conversation_share_upload.go:216-227 | In a valid snapshot the source of a media reference is HTML and an attachment it resolves to is another one, of a media type |
| UploadDecoder.DecodeConversationShare | internal/desktop/conversation_share_upload.go:64-160 | Accepts exactly the acceptable uploads that the disk takes; the answer follows the snapshot's order with name, type, size and hash, and the stage holds exactly the bodies; too large is answered only where the budget breaks, a storage error only where the disk fails |
| UploadDecoder.TakeSnapshot | internal/desktop/conversation_share_upload.go:92-108 | The first part is taken exactly if it is a valid snapshot within its limit |
| UploadDecoder.TakeAttachments | internal/desktop/conversation_share_upload.go:83-141 | The part loop succeeds exactly if every part fits what the ones before it left of the budget and the disk takes it; the allowance of each write is never negative |
| UploadDecoder.TakeBody | internal/desktop/conversation_share_upload.go:83-158 | All after the snapshot succeeds exactly if the parts are acceptable, one for each attachment, and the disk takes them; then the list describes the staged bodies |
| UploadDecoder.TakeAttachment | internal/desktop/conversation_share_upload.go:109-140 | One part is taken exactly if it is declared, new, matching, fits what is left and the disk takes it |
| UploadDecoder.ListResources | internal/desktop/conversation_share_upload.go:149-158 | One result per attachment, in the snapshot's order |
| UploadDecoder.PartsAreBijective | internal/desktop/conversation_share_upload.go:64-160 | In an acceptable upload each declared attachment has exactly one part matching its name, type, size and hash |
| UploadDecoder.BodyGrows | internal/desktop/conversation_share_upload.go:109-140 | A part keeps the body acceptable exactly under the decoder's own conditions and remaining allowance |
| UploadDecoder.AllFitIsBodyOk | internal/desktop/conversation_share_upload.go:109-140 | Taking the parts one by one, each within what the ones before it left, comes to the same as the declarative condition on all of them |
| Framing.FrameRoundTrip | internal/tunnel/protocol.go:313-338 | Decoding an encoded frame followed by anything gives back the frame and exactly what followed, if and only if its kind is a byte and its payload within the reader's limit |
| Framing.JsonRoundTrip | internal/tunnel/protocol.go:205-236 | Every JSON frame the writer accepts is read back, consuming exactly itself |
| Framing.PrefixIsShort | internal/tunnel/protocol.go:324-338 | No proper prefix of a frame is taken for a frame |
| Framing.NumberRoundTrip | internal/tunnel/protocol.go:313-322 | Big-endian lengths survive encoding and decoding |
| Framing.WebSocketNetConn.Read | internal/tunnel/protocol.go:489-509 | One read hands out the next chunk of the concatenated binary payloads, non-empty when there is room; the end only when nothing is pending; text and empty messages leave no trace |
| Framing.WebSocketNetConn.ReadFull | internal/tunnel/protocol.go:324-337 | Exactly n bytes of the stream and not one more, or the two distinct short-stream errors |
| Framing.WebSocketNetConn.ReadWSFrame | internal/tunnel/protocol.go:324-338 | The frame reader computes the decoder on the pending stream and leaves exactly the rest |
| Framing.WebSocketNetConn.ReadJson | internal/tunnel/protocol.go:222-236 | The same for JSON frames |
| Framing.WebSocketNetConn.ReadUnits | internal/proxy/resource.go:279-307 | Whatever packets carry them, reading with the codecs in the order sent recovers the JSON documents and WebSocket frames sent over one stream, and leaves what followed |
| Framing.WriteAppends | internal/tunnel/protocol.go:511-524 | Each write appends exactly its bytes to the peer's stream |
| Framing.ChunkingIsInvisible | internal/tunnel/protocol.go:489-524 | The stream is the concatenation of the binary payloads however they are cut |
| RequestTable.TableIsTheUnsettled | tunnel-hub-public/src/lib/desktopWsClient.ts:375-470 | In every run whose accepted sends use no id still waiting, the table holds exactly the sent and unsettled requests, each with one live timer, with no other timers, and no request is settled twice |
| RequestTable.CloseSettlesEverything | tunnel-hub-public/src/lib/desktopWsClient.ts:338-343 | After a close by the page or by any socket every request ever sent is settled, once, and no timer is left |
| RequestTable.ClosableIffIdsFree | tunnel-hub-public/src/lib/desktopWsClient.ts:375-398 | At every moment of a run a close would settle everything sent, if and only if no accepted send used the id of a request still waiting |
| RequestTable.ReuseLosesARequest | tunnel-hub-public/src/lib/desktopWsClient.ts:391-397 | An accepted send that reuses a waiting id displaces the waiting request, which the next close leaves unsettled |
| RequestTable.OutcomesAreFinal | tunnel-hub-public/src/lib/desktopWsClient.ts:400-470 | A settled request is never touched again, whatever follows |
| RequestTable.FrameSettlesItsRequest | tunnel-hub-public/src/lib/desktopWsClient.ts:400-462 | A frame settles a request if and only if it carries that waiting request's id and is a response, an error, or a closing stream frame the request asked for |
| RequestTable.OutcomeHasItsEvent | tunnel-hub-public/src/lib/desktopWsClient.ts:375-470 | Over every run a settled request became what one event of the run made of it: resolved by a response or closing stream frame and refused by an error, each with its id; timed out by its own timer; disconnected by a close; or not connected by its own send |
| RequestTable.ReusedIdIsLost | tunnel-hub-public/src/lib/desktopWsClient.ts:375-398 | One such run: the second send of an id leaves the first request unsettled after the close, its timer still running |
| RequestTable.OlderSocketEndsTheSession | tunnel-hub-public/src/lib/desktopWsClient.ts:324-327 | A close reported late by an older socket rejects the request sent over the newer one and closes the session, although the newer socket is open |
| RequestTable.StepKeepsInv | tunnel-hub-public/src/lib/desktopWsClient.ts:321-470 | Every event keeps the table, the timers and the promises in agreement |
| RequestTable.DesktopWsSession.SendFrame | tunnel-hub-public/src/lib/desktopWsClient.ts:375-398 | Refused unless connected; otherwise one new entry, timer and request |
| RequestTable.DesktopWsSession.HandleMessage | tunnel-hub-public/src/lib/desktopWsClient.ts:400-462 | A frame stops the timer and settles the waiting request it names exactly if it is a response, an error, or a closing stream frame that request asked for; any other frame changes nothing |
| RequestTable.DesktopWsSession.OnTimer | tunnel-hub-public/src/lib/desktopWsClient.ts:385-388 | An expired timer removes its entry and rejects its request |
| RequestTable.DesktopWsSession.Connect | tunnel-hub-public/src/lib/desktopWsClient.ts:275-336 | Nothing while open or connecting; otherwise a new socket, or the error state |
| RequestTable.DesktopWsSession.OnOpen | tunnel-hub-public/src/lib/desktopWsClient.ts:293-303 | The first outcome of a connection attempt opens the session |
| RequestTable.DesktopWsSession.OnConnectFailed | tunnel-hub-public/src/lib/desktopWsClient.ts:304-319 | The first outcome of a connection attempt fails the session |
| RequestTable.DesktopWsSession.OnSocketClose | tunnel-hub-public/src/lib/desktopWsClient.ts:324-327 | A close reported by any of its sockets rejects all that is pending and ends the session |
| RequestTable.DesktopWsSession.Close | tunnel-hub-public/src/lib/desktopWsClient.ts:338-343 | Drops the socket and rejects all that is pending |
| RequestTable.DesktopWsSession.RejectAllPending | tunnel-hub-public/src/lib/desktopWsClient.ts:464-470 | The loop stops every entry's timer and rejects every entry's request once, then the table is empty |
| RequestTable.DesktopWsSession.RejectEach | tunnel-hub-public/src/lib/desktopWsClient.ts:465-468 | Every entry of the table has its timer stopped and its request rejected once, and no other timer or request is touched |
| TrafficSeries.CalendarAgrees | internal/admin/server.go:1250-1257 | Counting months one by one agrees with the closed Gregorian day arithmetic, across year ends and leap years, in both directions |
| TrafficSeries.BucketIsAnInterval | internal/admin/server.go:1258-1267 | Buckets are contiguous and strictly increasing, and a time truncates to a bucket if and only if it lies between that one and the next |
| TrafficSeries.NowIsInTheLastBucket | internal/admin/server.go:1244-1256 | The range starts with its first bucket and now lies in its last |
| TrafficSeries.OneBucketEach | internal/admin/server.go:1214-1242 | Every time between the start of the range and now lies in exactly one bucket of the series |
| TrafficSeries.FillPoints | internal/admin/server.go:1221-1230 | The points carry the buckets in order and the index finds each |
| TrafficSeries.AddEvent | internal/admin/server.go:1231-1240 | One event is added to the point whose interval contains it, if any, and to no other |
| TrafficSeries.MakeSeries | internal/admin/server.go:1214-1242 | Each point has the bytes of exactly the stored events between its bucket and the next; with no event later than now they add up to all since the start |
| TrafficSeries.SeriesAddsUp | internal/admin/server.go:1231-1241 | The byte totals of the series are the totals of the events it spans, inwards, outwards and together |
| TrafficSeries.SinceKeepsBytes | internal/store/store.go:857-869 | The query's rounded lower bound loses no event of the range |

## Left out

- TunnelManager.Manager.UpdatePlatformCredential: does not look into the credential token (three parts, scope, device and expiry claims, internal/tunnel/platform_credential.go:19-31); the fields it compares are modelled.
- DeviceRegistry.DeviceStore.RegisterDesktopDevice: leaves out the trimming and validation of its input and the owner's e-mail and name, which it refreshes; a failing statement counts as a transaction that did not happen.
- PendingResources.Run: leaves out the MIME type, size and hash copied beside the path; a body that is not saved has its partial file deleted, as `saveResourceBody` does.
- ShareLifecycle.ReadableResourceHasItsFile: requires sufficient timing, without which it is false (`ShareTiming.TimingIsExact`); the last step of removing a directory and the undoing of a failed commit are single steps, and the removal of the stage of a failed upload is left out.
- ShareTables.ShareDB.CreateConversationShareWithResources: leaves out the snapshot body, the conversation id, the name and type of a resource row and the validity rules of ids and rows.
- Peeking at a share, listing shares and recording the last access: read-only or a timestamp that decides nothing.
- LegacyMigration.Migration.Migrate: takes the shares in any order rather than sorted; what a power cut can undo after a completed system call is not modelled.
- LegacyMigration.Migration.Finish: relies on the legacy table's own foreign key for the share row of each row, which an ignoring insert would otherwise pass over in MySQL.
- SQLiteVersions.SQLiteFile.MigrateSQLite: requires that version 2 comes with its legacy table, which every exit keeps; the other files are covered by `WalkEnds`. Columns other than the revocation time are not modelled.
- UploadDecoder.DecodeConversationShare: parts arrive split; the bound on the whole request body, its epilogue and a read error inside a part all count as a broken part.
- SnapshotValidator.ParseConversationSnapshotResources: starts from parsed JSON; the rule that `null` or a value of the wrong type makes a list malformed is in the `Raw` value given to it.
- SourceRefs.CanonicalChatSourceRef: works on byte strings; the C1 controls are recognised by their UTF-8 bytes.
- Framing.WebSocketNetConn.ReadJson: stops before the parsing of the document.
- RequestTable.DesktopWsSession.HandleMessage: leaves out the listeners and stream callbacks, which must not throw or call back; a frame that does not parse is `None`.
- RequestTable.DesktopWsSession.OnTimer: is called for a live timer only, as a runtime does.
- TrafficSeries.MakeSeries: leaves out the labels and the width of a 64-bit counter; an event later than now is counted if it falls into the last bucket, as in the server.
- Heartbeats and identity expiry appear only as a disconnect at any moment; audit events and session rows are not modelled.
- HTTP routing, cookies on the wire, rendering, listing and admin handlers, web-app routes: request plumbing without an invariant of their own.
- yamux, the WebSocket library, SQL engines and the file system are taken at their word: a reliable byte stream, atomic transactions, atomic rename.
- JWT signatures, password hashing and random tokens: fresh or opaque values here.
- Configuration loading, brand checks and the build tools: single-function checks.
