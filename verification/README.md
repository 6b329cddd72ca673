# Halolake control API: a verified model

A Dafny model of the control API of Halolake, an AI gateway: the protocols that
move credentials, quota and usage between stores, and the computations behind
the administrator's views. State that the program changes in place is a class or
an array with loops proved against specification functions; protocols are
transition systems over any number of interleaved tasks; what is pure is
functions and lemmas. `dafny verify dfyconfig.toml` checks everything.

| files | part of the system |
|---|---|
| `OAuthLocks`, `OAuthRefresh`, `OAuthDecisions`, `OAuthRounds`, `SettingPatch`, `PercentEncoding` | single-flight OAuth refresh (section 6 of RFC 6749): the weak lock registry, the refresh protocol, its decisions and its compare-and-swap in raw fields, a whole refresh, the sparse settings patch, the request bodies |
| `MultiKey`, `MultiKeyStore`, `MultiKeyActions`, `MultiKeyDocument`, `MultiKeyRuns`, `MultiKeyOverlap` | channels with several keys: the aligned state maps, what the store's overlay keeps of a change, each action field by field, whole runs, and actions that overlap |
| `Billing`, `Redeeming`, `CodeLives`, `TopUps` | redemption codes, from creation to payout, and top-ups, credited across two stores |
| `UsageSink`, `Settlement` | recording, settling and discarding gateway usage |
| `Reconcile`, `ChannelModels` | upstream model lists: detect, apply, ignore |
| `Calendar`, `DateText`, `CheckIn` | civil dates, their text, and daily check-ins |
| `StatusRanges`, `FeedbackBatch`, `RuleText` | automatic disabling from gateway feedback, and rule texts read back |
| `Credentials`, `Boot` | the credentials file and the secrets of each boot |
| `OrderedSets`, `Catalog`, `ModelSync`, `SyncRecords`, `SyncPreview` | catalog enrichment and upstream metadata sync |
| `Grouping`, `UsageViews` | quota data and rankings |
| `Prelude`, `Text` | shared data and string functions |

## What the model found

Where a property does not hold of the code as it is, the code is modelled as it
is and the exact condition is proved.

- The two copies of `civil_from_days` differ before 0000-03-01, except on the last
  day of each 400-year era (`Calendar.EuclidCopyExact`).
- Key management changes a copy, but the store overlays it on what is stored: a removed
  entry comes back. `MultiKeyStore.ActionExact` says for each action when it takes effect,
  `MultiKeyRuns.RunExact` and `MultiKeyRuns.BoundRun` when a whole run does. Enabling
  stores nothing (`MultiKeyStore.EnablingStoresNothing`), and no run of actions and
  reports makes a disabled index enabled again (`MultiKeyRuns.DisabledForever`).
- An action that was overtaken between its read and its save brings deleted keys back and
  covers newer entries where its copy has one (`MultiKeyOverlap.OverlapExact`,
  `MultiKeyOverlap.OverlappedReport`).
- Automatic disabling counts lines while key management counts non-blank lines. The
  two agree exactly when no blank line stands before a key (`MultiKey.CompactExact`).
- A model name that holds a comma or looks like a `regex:` pattern breaks the
  agreement of apply and detect (`Reconcile.ApplyAgreesExact`).
- An ignore applied while a detect waits for upstream is lost, unless the model text
  changed too (`Reconcile.OverlappedIgnore`).
- A rotation that is lost before it is stored leaves a spent token in storage until an
  edit (`OAuthRefresh.TokenSafetyExact`, `OAuthRefresh.LostRotationStays`).
- A settled usage event is accepted again exactly when a log cleanup has passed its second
  since (`Settlement.ResendExact`); each request counts once exactly while that does not
  happen to it (`Settlement.ClaimedOnceExact`).
- Of several listings of a model in one sync only the last that names a known field
  counts, and a refused record ends the sync with the earlier overwrites stored.
  `SyncPreview.RefusedExact` and `SyncPreview.SyncExact` say when a sync is refused and
  which conflicts it leaves, refused or not.
- The catalog takes any vendor id for a model. A vendor that a sync creates may get an id
  that a model already has: conflicts then appear or vanish that nobody asked about
  (`SyncPreview.DanglingIdTaken`; exactly when: `SyncPreview.PreviewExact`).

## What the runs assume of their surroundings

- OAuth: refresh tokens belong to one channel, an operator writes only tokens that are
  unchanged or newly issued, upstream refuses a rotated token, and the clock does not go back.
- Redemption: keys are never issued twice; an edit neither resets a used code nor changes
  its quota (`Redeeming.ResetReopens`); a code whose handler is at work is not deleted, since
  a rollback goes by id and the newest id is reused after a deletion
  (`Redeeming.RollbackGoesById`, `Redeeming.DeletedIdIsReused`); ids stay below the 64-bit limit.
- Usage: a retry resends the same event.
- Key management: `MultiKeyRuns` is about whole actions, `MultiKeyOverlap` about reads and saves
  that interleave.
- Reconciliation: upstream's list and the model mapping stay the same through a run.
- Check-in: days lie between 0000-03-01 and 9999-12-31.
- Sync: no other writer changes the catalog during one sync, and new ids stay below the
  64-bit limit.

Clocks, random keys and tokens, store failures and the answers of upstream are
parameters or events. Regular-expression matching and the price of a top-up are
arbitrary functions.

## Model

| member | source | states |
|---|---|---|
| `OAuthLocks.LockRegistry.OauthRefreshLock` | apps/control-api/src/channel_special.rs:1022-1034 | a lookup prunes the dead weak entries, then returns the channel's live lock or registers a new one; the whole new table is tied to the lookup function |
| `OAuthLocks.OneLockPerChannel` | apps/control-api/src/channel_special.rs:1022-1034 | in every run of lookups, acquires, releases and drops by any number of tasks, all strong references to a channel's lock are to the one registered object, and its count is the number of its users |
| `OAuthLocks.MutualExclusion` | apps/control-api/src/channel_special.rs:1022-1034 | in every such run at most one task per channel holds the guard |
| `OAuthLocks.RefinesChannelMutex` | apps/control-api/src/channel_special.rs:1022-1034 | the weak registry behaves as one plain mutex per channel: a waiting task can enter exactly when nobody of its own channel is inside |
| `OAuthLocks.UnusedLockIsReplaced` | apps/control-api/src/channel_special.rs:1022-1034 | once the last reference is gone, the next lookup makes a lock nobody else has |
| `OAuthLocks.RegistryExact` | apps/control-api/src/channel_special.rs:1022-1034 | in every run a lookup leaves in the registry its own channel and the channels that some task uses, and no other |
| `OAuthRefresh.OneRefreshPerChannel` | apps/control-api/src/channel_special.rs:71-155 | in every run of the feedback, manual and WHAM-retry entry points, with cancelled requests, edits and clock ticks, at most one task per channel is between reading a credential and storing its successor |
| `OAuthRefresh.NoSpentTokenPresented` | apps/control-api/src/channel_special.rs:203-326 | if no rotation of a channel is lost, no task of any entry point presents on it a refresh token that upstream rotated away, and no rotated token is presented again; which tasks present at all is `OAuthDecisions.SingleFlightExact` and `OAuthDecisions.FeedbackExact` |
| `OAuthRefresh.CommitStoresGrant` | apps/control-api/src/channel_special.rs:71-155 | a commit that loses nothing leaves in storage a token that upstream still accepts; which fields it stores, and when, is `OAuthDecisions.CommitExact` |
| `OAuthRefresh.TokenSafetyExact` | apps/control-api/src/channel_special.rs:71-155 | in every run the stored token is one upstream accepts, or its replacement is on the way, at every point, if and only if no event ends a rotated refresh while the presented token stays stored |
| `OAuthRefresh.StepSafeExact` | apps/control-api/src/channel_special.rs:71-155 | one event keeps that if and only if it loses no rotation, told from the state before it |
| `OAuthRefresh.LostRotationStays` | apps/control-api/src/channel_special.rs:71-155 | after a lost rotation the spent token stays stored until the channel is edited, and every refresh that reaches upstream presents it again |
| `OAuthRefresh.CommitRecordsTime` | apps/control-api/src/channel_special.rs:136-153 | a stored rotation leaves the clock read after its grant as the channel's refresh stamp, however late the store answers, unless an operator changed the kind or the stamp meanwhile |
| `OAuthRefresh.FeedbackRefreshesAreSpaced` | apps/control-api/src/channel_special.rs:1036-1059 | in every run a feedback refresh is presented more than 30 seconds after the stamp of the channel's last committed refresh, through every edit that leaves the stamp alone |
| `OAuthRounds.RefreshCompletes` | apps/control-api/src/channel_special.rs:71-155 | end to end, from any point of any run: a task that comes to a channel nobody uses and finds a credential its entry point may refresh takes the lock, presents, and stores the granted access token, the time, and the same or a new refresh token |
| `OAuthRefresh.DroppedGrantReplaysToken` | apps/control-api/src/channel_special.rs:71-155 | a run in which a dropped request loses a rotation of a channel and the next refresh of that channel presents the spent token |
| `OAuthDecisions.SingleFlightExact` | apps/control-api/src/channel_special.rs:283-303 | after its read, a manual refresh or WHAM retry goes on to upstream if and only if the stored record is a Codex credential with a refresh token and its access token is the observed one, or one of the two is missing; otherwise it is over |
| `OAuthDecisions.FeedbackExact` | apps/control-api/src/channel_special.rs:1036-1059 | after its read, a feedback refresh goes on if and only if the stored record can be refreshed and has no stamp, or one more than 30 seconds away from now on either side |
| `OAuthDecisions.PresentExact` | apps/control-api/src/channel_special.rs:203-281 | a task presents the refresh token it read; upstream accepts it only if it was not rotated away, and the grant has the access token given and the same or a new refresh token |
| `OAuthDecisions.CommitExact` | crates/control-plane/src/management.rs:2429-2453 | the compare-and-swap in raw fields: no other channel changes, this one only if storage answers and its key is the key that was read, and then the stored access token, refresh token and stamp are the granted ones |
| `OAuthDecisions.EditOutlivesCommit` | crates/control-plane/src/management.rs:2443-2445 | over runs: an operator's edit that changes the key after a task's read is still what is stored after the task's commit, whatever other events come between |
| `OAuthDecisions.SecondCallerPresentsNothing` | apps/control-api/src/channel_special.rs:283-303 | over runs: of two callers that observed the same access token, the second presents nothing once the first has stored another, until the channel is edited or refreshed again |
| `SettingPatch.MergeReplaces` | crates/control-plane/src/management.rs:2161-2189 | merging yields the incoming document exactly when that document covers the existing one (no dropped key, no blank secret, recursively) |
| `SettingPatch.MergeIsIdempotent` | crates/control-plane/src/management.rs:2161-2189 | sending one patch twice is sending it once, for all documents |
| `SettingPatch.MaskedKeepsSecret` | crates/control-plane/src/management.rs:2191-2226 | a blank value under a sensitive key neither writes, adds nor removes the stored secret |
| `SettingPatch.SensitiveExact` | crates/control-plane/src/management.rs:2191-2226 | which names are secret: the sixteen words, in any case and with any separators, and the eight endings |
| `SettingPatch.CompactAppend` | crates/control-plane/src/management.rs:2196-2199 | separators are left out of a name piece by piece |
| `SettingPatch.CompactAlone` | crates/control-plane/src/management.rs:2196-2199 | of one character: letters and digits stay |
| `SettingPatch.PatchRebuilds` | apps/control-api/src/channel_special.rs:1155-1168 | merging the sparse patch of two documents into the first gives the second if and only if no field was dropped, no changed field is a blank secret, and changed fields are covered |
| `SettingPatch.RefreshPatchRebuilds` | apps/control-api/src/channel_special.rs:1109-1168 | for every setting and every parsed token reply, the refresh's sparse patch merged into the settings it was read from gives exactly the refreshed settings |
| `SettingPatch.RefreshedExact` | apps/control-api/src/channel_special.rs:1109-1150 | which value goes into each of the five fields: the granted refresh token, the time of the refresh, the identity token if granted, the saturated expiry if positive, and the trimmed endpoint if not blank |
| `SettingPatch.RefreshedElsewhere` | apps/control-api/src/channel_special.rs:1109-1150 | every other field stays |
| `RuleText.IntTextReads` | apps/control-api/src/channel_special.rs:1128-1137 | the times are written as decimal numbers that read back as themselves |
| `SettingPatch.EditSurvivesRefresh` | apps/control-api/src/channel_special.rs:1152-1168 | merged into concurrently edited settings, the patch writes only refresh fields and leaves every other key as the edit left it |
| `PercentEncoding.PercentEncode` | apps/control-api/src/channel_special.rs:1348-1362 | the byte loop computes the encoding |
| `PercentEncoding.EncodedIsSafe` | apps/control-api/src/channel_special.rs:1348-1362 | the output has unreserved characters and percent signs only (section 2.3 of RFC 3986), so never a form separator |
| `PercentEncoding.ByteExact` | apps/control-api/src/channel_special.rs:1348-1362 | letters, digits and `-._~` stand for themselves, any other byte is a percent sign and its two upper-case hex digits |
| `PercentEncoding.EncodedAppend` | apps/control-api/src/channel_special.rs:1348-1362 | the encoding works byte by byte |
| `PercentEncoding.DecodeEncode` | apps/control-api/src/channel_special.rs:1348-1362 | an independent form decoder gives back every byte sequence |
| `PercentEncoding.FormRoundTrip` | apps/control-api/src/channel_special.rs:225-230 | a form body splits back into exactly its fields, whatever bytes the values hold |
| `PercentEncoding.CodexBodyReads` | apps/control-api/src/channel_special.rs:225-230 | the Codex refresh body, as it is formatted, is read as its four intended fields for any token and client id |
| `PercentEncoding.XaiBodyReads` | apps/control-api/src/channel_special.rs:1231-1235 | the xAI refresh body, as it is formatted, is read as its three intended fields |
| `PercentEncoding.GrantPair` | apps/control-api/src/channel_special.rs:225-230 | the literal grant type needs no encoding |
| `MultiKey.KeysSurviveJoin` | apps/control-api/src/channel_special.rs:989-995 | joining trimmed keys with newlines and splitting again gives the same keys |
| `MultiKey.ReindexAligned` | apps/control-api/src/channel_special.rs:901-926 | after any deletion the reindexed maps stay below the key count and show each surviving key with its own status, time and reason |
| `MultiKey.Reindex` | apps/control-api/src/channel_special.rs:901-926 | the loop computes the reindexed maps |
| `MultiKey.DisableLoop` | apps/control-api/src/channel_special.rs:464-574 | the disable-all loop disables exactly the enabled keys, keeps indexes in range, and counts zero only if there were none |
| `MultiKey.FeedbackHitsReportedKey` | crates/control-plane/src/management.rs:2512-2632 | automatic disabling changes the reported key and no other when its line number is its key number; otherwise the reported key is left as it was |
| `MultiKey.CompactExact` | crates/control-plane/src/management.rs:2518-2523 | line numbers are key numbers if and only if no blank line stands before a key |
| `MultiKey.JoinCompact` | apps/control-api/src/channel_special.rs:989-995 | a rejoined key text has no blank line before a key |
| `MultiKey.BlankLineMisdirects` | crates/control-plane/src/management.rs:2512-2632 | a concrete key text whose blank line makes the report about one key disable another |
| `MultiKeyStore.CopyIsRight` | apps/control-api/src/channel_special.rs:464-574 | the changed copy that is sent to the store shows exactly what the action means, for every action and error reply |
| `MultiKeyStore.Prepare` | apps/control-api/src/channel_special.rs:464-574 | the action's branches and loops compute the changed copy of the channel that was read, and the reply |
| `MultiKeyStore.MultiKeyChannel.Save` | crates/control-plane/src/management.rs:2050-2126 | the store takes over a key text that is not blank and overlays the settings |
| `MultiKeyStore.MultiKeyChannel.Manage` | apps/control-api/src/channel_special.rs:464-574 | with nothing between its read and its save, an action replies as it means, a refused one changes nothing, and the stored channel shows what it means if and only if the action sticks |
| `MultiKeyDocument.SaveOverlays` | crates/control-plane/src/management.rs:2161-2189 | merging the saved document is the overlay of the three maps and leaves every other setting as it was |
| `MultiKeyDocument.IndexNotSensitive` | crates/control-plane/src/management.rs:2191-2226 | no index text is taken for the name of a secret |
| `MultiKeyStore.ActionExact` | apps/control-api/src/channel_special.rs:464-574 | for every action: the stored channel shows what it means if and only if a condition on the maps before the call holds; disabling always, enabling only what is enabled, deleting when a key is left and no old entry shows through |
| `MultiKeyStore.EnablingStoresNothing` | apps/control-api/src/channel_special.rs:489-500 | enabling one key or all keys leaves the stored channel as it was |
| `MultiKeyStore.DeletingAllDeletesNone` | apps/control-api/src/channel_special.rs:536-567 | deleting the auto-disabled keys when that is all of them replies success and stores nothing |
| `MultiKeyStore.DeletedStatus` | apps/control-api/src/channel_special.rs:518-535 | which key and which status a deletion leaves at each position |
| `MultiKeyStore.DeletionPassesOnStatus` | apps/control-api/src/channel_special.rs:518-535 | three keys, the first auto-disabled: deleting it shows the second auto-disabled |
| `MultiKeyStore.DeletionLeavesIndex` | apps/control-api/src/channel_special.rs:518-535 | three keys, the last auto-disabled: deleting the first leaves an index that no key has |
| `MultiKeyActions.ReplyExact` | apps/control-api/src/channel_special.rs:464-574 | the answer to each action from the stored channel and the request: when an index is bad, when the action is refused |
| `MultiKeyActions.ShownExact` | apps/control-api/src/channel_special.rs:464-574 | what is shown at a position: key, status, and time and reason unless enabled |
| `MultiKeyActions.DisableExact` | apps/control-api/src/channel_special.rs:480-488 | disabling a key stores status 2, the clock and the reason at its index, and nothing else |
| `MultiKeyActions.DisableAllExact` | apps/control-api/src/channel_special.rs:501-517 | disabling all does that to exactly the enabled indexes below the key count |
| `MultiKeyActions.DeleteKeyExact` | apps/control-api/src/channel_special.rs:518-535 | deleting a key takes it out of the list; at every index, what is stored afterwards of status, time and reason |
| `MultiKeyActions.DeleteAutoExact` | apps/control-api/src/channel_special.rs:536-567 | deleting the auto-disabled keys leaves exactly the others, in order, with the entries that moved with them |
| `MultiKeyActions.ReportExact` | crates/control-plane/src/management.rs:2512-2632 | a report stores status 3, its time and its reason at the line number if and only if that line holds a key and so does another |
| `MultiKeyStore.BoundExact` | apps/control-api/src/channel_special.rs:464-574 | an action leaves stored indexes below the key count if and only if the stored maps already lie below the new count |
| `MultiKeyRuns.StepExact` | crates/control-plane/src/management.rs:2512-2632 | an action or a gateway report shows what it means if and only if it is faithful to the channel before it |
| `MultiKeyRuns.RunExact` | apps/control-api/src/channel_special.rs:464-574 | a run of actions and reports shows what its events mean, at every point, if and only if every event is faithful to the stored channel it meets |
| `MultiKeyRuns.FaithfulRunKeepsState` | apps/control-api/src/channel_special.rs:464-574 | after a faithful run the stored keys are original keys in order, and a key no event was about has its own status, time and reason |
| `MultiKeyRuns.BoundRun` | apps/control-api/src/channel_special.rs:464-574 | stored indexes stay below the key count at every point of a run if and only if every event fits the channel it meets |
| `MultiKeyRuns.DisabledForever` | crates/control-plane/src/management.rs:2076-2077 | in every run what was stored at an index stays stored, and an index that was disabled is disabled at the end |
| `MultiKeyRuns.KeysArePicked` | apps/control-api/src/channel_special.rs:464-574 | in every run the keys are original keys in their original order |
| `MultiKeyOverlap.SerialIsRun` | apps/control-api/src/channel_special.rs:464-574 | when nothing comes between a read and its save, runs of reads, saves and reports are the runs of whole actions |
| `MultiKeyOverlap.OverlapExact` | apps/control-api/src/channel_special.rs:464-574 | what a save leaves of anything that came since its read: the copy's keys unless it has none, and at each index the copy's entry where it has one, else what is stored by then |
| `MultiKeyOverlap.OverlappedStatus` | apps/control-api/src/channel_special.rs:568-571 | in every run, the status of an index after an overtaken save is the copy's if it has one, else the stored one |
| `MultiKeyOverlap.OverlappedReport` | crates/control-plane/src/management.rs:2512-2632 | a key auto-disabled while an action waited still is after the save if and only if the copy says nothing of its status, or the same |
| `MultiKeyOverlap.OverlappedDelete` | apps/control-api/src/channel_special.rs:518-567 | keys deleted while another action waited come back with its save: unless it deletes itself, the keys are the ones it read |
| `MultiKeyOverlap.KeysStayPicked` | apps/control-api/src/channel_special.rs:464-574 | however actions overlap, the keys are original keys in their original order |
| `MultiKeyOverlap.OverlapsDisableForever` | crates/control-plane/src/management.rs:2076-2077 | however actions overlap, stored entries stay and a disabled index stays disabled, provided no stored status says enabled outright |
| `Billing.MemoryBillingStore.Create` | apps/control-api/src/billing.rs:311-344 | appends one enabled code per fresh key with successive ids, or refuses and changes nothing |
| `Billing.MemoryBillingStore.Update` | apps/control-api/src/billing.rs:346-372 | status-only and full edits, missing id and expired edit |
| `Billing.MemoryBillingStore.Delete` | apps/control-api/src/billing.rs:374-389 | removes exactly the codes with the id and reports a miss |
| `Billing.MemoryBillingStore.DeleteInvalid` | apps/control-api/src/billing.rs:391-415 | keeps exactly the codes that are still valid and counts the others; which those are, in the fields of the code, is `CodeLives.DeleteInvalidExact` |
| `Billing.MemoryBillingStore.Redeem` | apps/control-api/src/billing.rs:417-452 | the search for the trimmed key and the update in place: succeeds exactly for a redeemable code, which it marks for the user, and returns its id and quota; otherwise changes nothing. What is redeemable, in the fields of the code, is `CodeLives.RedeemExact` |
| `Billing.MemoryBillingStore.Rollback` | apps/control-api/src/billing.rs:454-477 | re-enables the code with the id only if this user is recorded on it |
| `Billing.MemoryBillingStore.CreateTopUp` | apps/control-api/src/billing.rs:499-524 | normalises, refuses duplicates by trade number or id, assigns id and time |
| `Billing.MemoryBillingStore.Complete` | apps/control-api/src/billing.rs:526-561 | the five outcomes of a completion and the one record it changes, in place; what it pays is `TopUps.CompletePays` |
| `Redeeming.RunKeeps` | apps/control-api/src/api_catalog.rs:311-365 | in every interleaving of redeems, credits, failures, rollbacks, lost handlers and allowed edits, each used code, deleted ones included, is accounted for exactly once: at work, credited, lost, or marked used by hand |
| `Redeeming.CreditedAtMostOnce` | apps/control-api/src/api_catalog.rs:311-365 | in every such run, codes marked used by hand included, no code is credited twice, to one user or to two |
| `Redeeming.RedeemableIsClean` | apps/control-api/src/billing.rs:454-477 | a code that is not used has no credit and no handler holds it: a rolled-back redemption leaves no trace |
| `Redeeming.QuietRunConserves` | apps/control-api/src/api_catalog.rs:311-365 | once all handlers finished and none was lost, the quota of a user's used codes is the credit the user received plus what was marked by hand |
| `Redeeming.BalanceIsReceived` | crates/control-plane/src/management.rs:1418-1440 | the saturating 64-bit balance that positive credits leave is their sum capped at the maximum, in whatever order they come |
| `Redeeming.RollbackFindsCode` | apps/control-api/src/billing.rs:454-477 | in every run a rollback finds the very code its handler marked |
| `Redeeming.ResetReopens` | apps/control-api/src/billing.rs:346-372 | a status edit on a used code makes it redeemable again: why such edits are excluded from the runs |
| `Redeeming.DeletedIdIsReused` | apps/control-api/src/billing.rs:311-344 | deleting the newest code gives its id to the next one created |
| `Redeeming.RollbackGoesById` | apps/control-api/src/billing.rs:454-477 | a rollback re-enables whichever code has the id now: why codes in flight are not deleted in the runs |
| `CodeLives.RedeemExact` | apps/control-api/src/billing.rs:420-452 | a code is redeemed under its key if and only if its status is 1 and its expiry is 0 or not past; it is then marked with the user and the time, the claim is for its quota, and the other codes stay |
| `CodeLives.NothingToRedeem` | apps/control-api/src/billing.rs:420-452 | an unknown key, a blank key and user 0 redeem nothing |
| `CodeLives.CreatedCodeRedeems` | apps/control-api/src/billing.rs:420-452 | over runs: a code created with expiry x and touched by no later event is redeemed at time t if and only if x is 0 or t <= x, for the quota it was created with |
| `CodeLives.RedemptionPaysOut` | apps/control-api/src/api_catalog.rs:311-365 | over runs: redeeming a code and crediting it raises the balance of that user by its quota, up to the 64-bit maximum, and nobody else's |
| `CodeLives.RefusedRedemptionUndone` | apps/control-api/src/api_catalog.rs:311-365 | over runs: redeeming, a refused credit and the rollback leave the state there was before |
| `CodeLives.LostHandlerLeaves` | apps/control-api/src/api_catalog.rs:311-365 | a handler that dies leaves its claim lost and changes nothing else |
| `CodeLives.RollbackRestores` | apps/control-api/src/billing.rs:454-477 | rolling back a redemption gives the list of codes as it was |
| `CodeLives.RollbackOfOther` | apps/control-api/src/billing.rs:454-477 | a rollback for a code that is not used, or used by another, changes nothing |
| `CodeLives.DeleteExact` | apps/control-api/src/billing.rs:374-389 | deleting an id leaves exactly the codes with another id |
| `CodeLives.DeleteInvalidExact` | apps/control-api/src/billing.rs:391-418 | deleting the invalid leaves exactly the codes that are not disabled, not used and, if enabled, not past an expiry |
| `CodeLives.EditExact` | apps/control-api/src/billing.rs:346-372 | which fields an edit writes, status only or full, and which code |
| `CodeLives.RetainedPicks` | apps/control-api/src/billing.rs:374-418 | what a deletion keeps stays in its order |
| `TopUps.GrantedAtMostOnce` | apps/control-api/src/api_catalog.rs:367-405 | in every run a trade number grants quota at most once, and to the top-up's own user |
| `TopUps.CompleteIsIdempotent` | apps/control-api/src/billing.rs:526-561 | completing again, at any price and time, grants nothing and changes nothing |
| `TopUps.CompletePays` | apps/control-api/src/billing.rs:527-560 | completing a pending top-up worth q marks it a success at that time and adds exactly the grant of q to its user, none if q is not positive |
| `TopUps.CompletePaysNothing` | apps/control-api/src/billing.rs:527-560 | a completion that meets no pending top-up, or one without a price, changes nothing |
| `TopUps.GrantsExact` | apps/control-api/src/api_catalog.rs:367-405 | in every run the grants, pending, credited and lost, are exactly those some completing event paid: trade and user of a then pending top-up, and the positive quota its price gave at that event |
| `TopUps.CreateExact` | apps/control-api/src/billing.rs:500-525 | which top-ups are refused, and every field of one that is stored |
| `TopUps.TopUpsStaySound` | apps/control-api/src/billing.rs:500-525 | in every run stored top-ups have a trimmed trade number, a user and ids that tell them apart |
| `TopUps.CreditMoves` | apps/control-api/src/api_catalog.rs:367-405 | over runs: the credit call moves its one grant to the credited when it succeeds and to the lost when it fails |
| `UsageSink.MemoryUsageEventSink.RecordUnique` | crates/control-plane/src/memory.rs:95-108 | records and returns exactly the events whose id is new, in order, and keeps the id set equal to the recorded ids |
| `UsageSink.AcceptedExact` | crates/control-plane/src/memory.rs:95-108 | the accepted events carry exactly the batch's unknown ids, each once |
| `UsageSink.AcceptedAppend` | crates/control-plane/src/memory.rs:95-108 | where a batch is cut does not matter: recording two batches accepts what recording them as one does, in order, first occurrences |
| `UsageSink.MemoryUsageEventSink.DeleteBeforeUnixSeconds` | crates/control-plane/src/memory.rs:110-129 | keeps exactly the events from the target second on |
| `UsageSink.MemoryUsageEventSink.ApplyQuotas` | crates/control-plane/src/memory.rs:131-149 | writes the last listed quota of each id and nothing else |
| `UsageSink.MemoryUsageEventSink.DiscardRequestIds` | crates/control-plane/src/memory.rs:155-182 | removes exactly the events with the listed ids |
| `UsageSink.WithoutAppend` | crates/control-plane/src/memory.rs:155-182 | discarding keeps the order of what stays |
| `UsageSink.SinceAppend` | crates/control-plane/src/memory.rs:110-129 | so does deleting before a second |
| `UsageSink.KeptAlone` | crates/control-plane/src/memory.rs:95-182 | of one event: when it is accepted, discarded, or deleted as too old, in its id and its milliseconds |
| `UsageSink.LastQuotaWins` | crates/control-plane/src/memory.rs:131-149 | an event gets the last quota listed for its id, keeps its own when there is none, and changes in nothing else |
| `Settlement.RunKeeps` | apps/control-api/src/api_system.rs:102-181 | in every interleaving of batches, retries, refusals, discards, lost handlers and cleanups, an id that is not recorded again past a cleanup counts at most once among settlements, handlers at work and lost handlers, and the log has it exactly while it is taken and not cleaned up |
| `Settlement.ClaimedOnceExact` | apps/control-api/src/api_system.rs:102-181 | in every run an id counts at most once at every point, settled, at work and lost together, if and only if no event records it again after a cleanup passed its second, whatever happens to other ids |
| `Settlement.SettledAtMostOnce` | apps/control-api/src/api_system.rs:102-181 | in every run a request that is not recorded again past a cleanup is settled at most once, whatever other batches hold |
| `Settlement.TimelyIsSettledOnce` | apps/control-api/src/api_system.rs:102-181 | in particular a request is settled at most once when no batch that holds it reaches back before the last cleanup |
| `Settlement.QuietLogIsSettled` | apps/control-api/src/api_system.rs:102-181 | with no handler at work and none lost, such a request is in the log exactly if it was settled and no cleanup has passed it since |
| `Settlement.DiscardedIsRetryable` | apps/control-api/src/api_system.rs:157-175 | after a discard, through any further events that do not record the id again, cleanups and other handlers included, a resent batch is accepted and settling it settles the request once |
| `Settlement.ResendExact` | crates/control-plane/src/memory.rs:110-129 | a resent event of a request already taken is accepted again if and only if a cleanup has passed its second since it was recorded |
| `Settlement.ResendByFloor` | crates/control-plane/src/memory.rs:110-129 | for such requests a resent event is accepted again if and only if its second lies before the last cleanup |
| `Settlement.SettledTwiceExact` | apps/control-api/src/api_system.rs:102-181 | resending a settled request and settling it settles it twice if and only if a cleanup has passed its second since it was recorded |
| `Settlement.RecordExact` | apps/control-api/src/api_system.rs:102-156 | recording a batch logs all its ids, and its handler holds exactly the new ones; without a new one there is no handler |
| `Settlement.HandlerEnds` | apps/control-api/src/api_system.rs:102-181 | settling counts each id the handler holds once, a lost handler counts them lost, and a discard takes exactly them out of the log |
| `Settlement.RefusedStillHolds` | apps/control-api/src/api_system.rs:157-175 | a refusal keeps the handler at work with its ids until its discard, and it can settle no more |
| `Reconcile.NormalizeModelNames` | apps/control-api/src/channel_ops.rs:1214-1225 | the loop trims, drops blanks and keeps first occurrences |
| `ChannelModels.NormalizeExact` | apps/control-api/src/channel_ops.rs:1214-1225 | normalizing keeps the first occurrence of every trimmed name that is not blank, in order |
| `Reconcile.MergeModelNames` | apps/control-api/src/channel_ops.rs:1227-1236 | the loop appends the new names in order |
| `Reconcile.SubtractHolds` | apps/control-api/src/channel_ops.rs:1238-1246 | what is left is normalized, has exactly the first list's names that the second lacks, and is in the first list's order |
| `Reconcile.IntersectHolds` | apps/control-api/src/channel_ops.rs:1248-1256 | what is left is normalized, has exactly the names both lists have, and is in the first list's order |
| `Reconcile.SelectedHolds` | apps/control-api/src/channel_ops.rs:1258-1270 | the selection has no repeats and holds exactly the added names and the channel's names that are not removed; a name both added and removed stays |
| `Reconcile.SelectedLayout` | apps/control-api/src/channel_ops.rs:1258-1270 | kept names come first in the channel's order, then the new ones in the order of the request |
| `Reconcile.ModelChannel.ApplyUpdates` | apps/control-api/src/channel_ops.rs:1020-1065 | updates text, pending lists and ignore list, and leaves the pending lists as the next detect would find them |
| `Reconcile.ModelListOfJoin` | crates/domain/src/lib.rs:176-184 | a list of comma-free names survives being stored as text |
| `Reconcile.CollectHolds` | apps/control-api/src/channel_ops.rs:1067-1096 | what exactly is pending, and in which order |
| `Reconcile.ApplyAgreesWithDetect` | apps/control-api/src/channel_ops.rs:1020-1096 | after any apply of any chosen subsets, a new detect finds exactly the returned remaining lists, in order |
| `Reconcile.ApplyAgreesExact` | apps/control-api/src/channel_ops.rs:1020-1108 | every apply agrees with the next detect if and only if each pending name has no comma and, if it looks like a pattern, matches itself and no other pending name |
| `Reconcile.CommaNameBreaks` | apps/control-api/src/channel_ops.rs:1020-1096 | an added name with a comma is found missing again |
| `Reconcile.PatternNameBreaks` | apps/control-api/src/channel_ops.rs:1098-1108 | an ignored name that looks like a pattern hides the wrong names |
| `Reconcile.DetectIsFresh` | apps/control-api/src/channel_ops.rs:441-498 | a detect, with or without automatic sync, stores what a detect would find now; what it stores is `ChannelModels.DetectExact` |
| `Reconcile.RunStaysFresh` | apps/control-api/src/channel_ops.rs:441-633 | once fresh, the stored lists are at every time what recomputing gives, however the reads and writes of detects and applies interleave |
| `Reconcile.OverlappedIgnore` | apps/control-api/src/channel_ops.rs:441-498 | an ignore applied while a detect waits for upstream is still there after the detect's write if and only if the model text changed meanwhile |
| `Reconcile.ApplyAllIsFixpoint` | apps/control-api/src/channel_ops.rs:1020-1096 | applying everything leaves nothing to find, in one round |
| `Reconcile.ModelChannel.DetectUpdates` | apps/control-api/src/channel_ops.rs:441-498 | the detect in place: updates text and pending lists as specified and leaves what a detect would find now |
| `ChannelModels.FoundExact` | apps/control-api/src/channel_ops.rs:1067-1096 | what a detect finds: upstream names the channel lacks, no mapping leads to and no entry hides, in upstream's order; and the channel's names that upstream lacks and no mapping starts from, in the channel's order |
| `ChannelModels.IgnoredExact` | apps/control-api/src/channel_ops.rs:1098-1108 | an entry hides a name by its pattern after `regex:`, or by being it |
| `ChannelModels.DetectExact` | apps/control-api/src/channel_ops.rs:464-480 | what a detect stores: with automatic sync and something found, the old names in their order followed by the found ones, and nothing pending; otherwise the text as it was and the found names pending; the ignore list as it was |
| `ChannelModels.DetectStores` | apps/control-api/src/channel_ops.rs:441-498 | so does a detect in any run, when nothing comes between its read and its write |
| `ChannelModels.ApplyChooses` | apps/control-api/src/channel_ops.rs:1020-1065 | which names an apply adds, removes and leaves pending, from the request and the pending lists |
| `ChannelModels.ApplyStores` | apps/control-api/src/channel_ops.rs:1020-1065 | the names, in order, the text, the pending lists and the ignore list that an apply stores |
| `Calendar.CivilCountsBack` | apps/control-api/src/channel_ops.rs:1717-1729 | every integer day gives a valid proleptic Gregorian date, the one an independent day count puts at that distance from 1970-01-01 |
| `Calendar.CivilInvertsCount` | apps/control-api/src/channel_ops.rs:1717-1729 | the conversion inverts the count on every valid date |
| `Calendar.CivilSuccessor` | apps/control-api/src/channel_ops.rs:1717-1729 | successive days are successive dates |
| `Calendar.CivilEpoch` | apps/control-api/src/channel_ops.rs:1717-1729 | day 0 is 1970-01-01 |
| `Calendar.CountOrder` | apps/control-api/src/channel_ops.rs:1717-1729 | the day count orders dates as year, month and day do |
| `Calendar.EuclidCopyExact` | apps/control-api/src/api_user.rs:1655-1667 | the second copy agrees with the first at or after 0000-03-01 and on the last day of each 400-year era, and reports a strictly later date on every other day |
| `DateText.DayIsPrintable` | apps/control-api/src/api_user.rs:1650-1653 | from 0000-03-01 to 9999-12-31 the printed text is the four-two-two digit form of the counted date |
| `DateText.DayTextOrder` | apps/control-api/src/api_user.rs:1650-1653 | printed days order as strings exactly as the day numbers do |
| `DateText.MonthFilterExact` | apps/control-api/src/checkin.rs:127-146 | comparing with `-01` and `-31` selects exactly the days of the month, short months included |
| `DateText.FourDigitExact` | apps/control-api/src/api_user.rs:1646-1662 | the days that print in full, told by the date: from 0000-03-01 to 9999-12-31 |
| `CheckIn.MemoryCheckinStore.Insert` | apps/control-api/src/checkin.rs:98-118 | refuses a second record of a user and date, otherwise appends with the next id |
| `CheckIn.AwardQuota` | apps/control-api/src/api_user.rs:1632-1644 | the award is never negative and lies within the configured bounds after clamping |
| `CheckIn.AwardExact` | apps/control-api/src/api_user.rs:1632-1644 | which amounts some seed draws: all between the clamped bounds, except the 64-bit maximum itself when the range is all of it |
| `CheckIn.OneRecordPerDay` | apps/control-api/src/api_user.rs:869-915 | in every run a user has at most one record per UTC day |
| `CheckIn.CreditedOncePerDay` | apps/control-api/src/api_user.rs:869-915 | every stored award is pending, credited or lost exactly once, so no user is credited twice on a day |
| `CheckIn.CreditMoves` | apps/control-api/src/api_user.rs:869-915 | over runs: the credit call moves its one award to the credited or to the lost |
| `CheckIn.StatisticsExact` | apps/control-api/src/checkin.rs:122-159 | the statistics list, newest first, exactly the user's records of the days of that month |
| `CheckIn.TotalsExact` | apps/control-api/src/checkin.rs:122-159 | over all months, in every run: the count is the number of days the user sent a check-in, today is flagged exactly when one was sent, and the total is the sum of the user's awards as a 64-bit word |
| `StatusRanges.Merge` | apps/control-api/src/channel_feedback.rs:290-330 | the in-place merge loop gives sorted, separated ranges that cover exactly the same codes |
| `StatusRanges.ParseSegments` | apps/control-api/src/channel_feedback.rs:332-361 | every segment is parsed or listed as invalid |
| `StatusRanges.ParseStatusCodeRanges` | apps/control-api/src/channel_feedback.rs:290-361 | accepts exactly the texts whose rules are all valid, and the ranges then cover exactly the named codes in normal form |
| `StatusRanges.CanonicalUnique` | apps/control-api/src/channel_feedback.rs:290-330 | the normal form is unique: lists that cover the same codes are equal |
| `StatusRanges.SameMeaningSameList` | apps/control-api/src/channel_feedback.rs:290-361 | two valid rule texts parse to one list if and only if they name the same codes |
| `RuleText.CodeReads` | apps/control-api/src/channel_feedback.rs:332-361 | a number alone is a rule if and only if it is from 100 to 599 |
| `RuleText.RangeReads` | apps/control-api/src/channel_feedback.rs:332-361 | two numbers around a dash are a rule if and only if they are in order and both from 100 to 599 |
| `RuleText.StatusReads` | apps/control-api/src/channel_feedback.rs:355-361 | a status is a decimal number from 100 to 599, with or without a plus sign |
| `RuleText.PrintedRulesMean` | apps/control-api/src/channel_feedback.rs:290-361 | a printed list of ranges is a valid rule text that names exactly their codes |
| `RuleText.PrintedParses` | apps/control-api/src/channel_feedback.rs:290-361 | the round trip: printing ranges in normal form and parsing them gives the same ranges |
| `RuleText.WideCommasSplit` | apps/control-api/src/channel_feedback.rs:290-300 | the full-width comma counts as a comma, wherever it stands |
| `FeedbackBatch.PolicyFollowsRules` | apps/control-api/src/channel_feedback.rs:236-260 | the policy of the options disables on exactly the codes their rule text names and the messages holding a keyword line of four bytes or more, unless the message holds one of the three exempt phrases |
| `FeedbackBatch.FromOptions` | apps/control-api/src/channel_feedback.rs:203-230 | the policy built from the three named options is on for the four words that say so, covers exactly the codes the rule text names (401 by default, none when it is invalid), and has the keyword lines trimmed and lowered |
| `FeedbackBatch.Utf8LengthExact` | apps/control-api/src/channel_feedback.rs:255-260 | the length that counts for a keyword is its UTF-8 bytes |
| `FeedbackBatch.RefreshOnce` | apps/control-api/src/channel_feedback.rs:72-176 | a channel in the memo is not refreshed again and its remembered answer is used |
| `FeedbackBatch.ProcessFacts` | apps/control-api/src/channel_feedback.rs:72-176 | the loop on classified events: one attempt per channel, the counters, and the events reported |
| `FeedbackBatch.Process` | apps/control-api/src/channel_feedback.rs:72-194 | each channel with a 401 or 403 is refreshed once and no other is, the count is the number of distinct channels refreshed, an event is reported, once and in batch order, exactly when the policy is on and asks for it and it is not a 401 or 403 of a channel refreshed in this batch, and the two counters are the disable calls answered with a change |
| `RuleText.NumericIdReads` | apps/control-api/src/channel_feedback.rs:183-194 | a channel id is a decimal number of 64 bits |
| `Credentials.ReadKvFile` | apps/control-api/src/bootstrap_credentials.rs:228-245 | the line loop computes the parsed pairs |
| `Credentials.WriteKvFile` | apps/control-api/src/bootstrap_credentials.rs:247-279 | the printing loop computes the file text |
| `Credentials.RoundTripExact` | apps/control-api/src/bootstrap_credentials.rs:228-279 | a one-line pair reads back as itself if and only if key and value are trimmed and the key has no equals sign and no leading hash |
| `Credentials.FileReads` | apps/control-api/src/bootstrap_credentials.rs:228-279 | a written file reads back as its pairs with trimmed values, comment header skipped |
| `Credentials.FileRoundTrip` | apps/control-api/src/bootstrap_credentials.rs:228-279 | lasting pairs read back exactly |
| `Credentials.RewriteIsFaithful` | apps/control-api/src/bootstrap_credentials.rs:228-279 | for any text whatever, reading, writing and reading again agrees with reading |
| `Boot.SetKv` | apps/control-api/src/bootstrap_credentials.rs:220-226 | overwrites the first pair with the key or appends one |
| `Boot.GetSet` | apps/control-api/src/bootstrap_credentials.rs:213-226 | a write is read back under its key in any ASCII case and shows under no other |
| `Boot.SameKeyExact` | apps/control-api/src/bootstrap_credentials.rs:213-226 | two keys are one if and only if they agree in lower case |
| `Boot.CredentialsFile.EnsureRuntimeSecrets` | apps/control-api/src/bootstrap_credentials.rs:48-108 | resolves both secrets from config, environment and file, and rewrites the file only when one was generated |
| `Boot.CredentialsFile.WriteRootAdmin` | apps/control-api/src/bootstrap_credentials.rs:141-157 | adds the four administrator entries to what the file holds |
| `Boot.AdminReads` | apps/control-api/src/bootstrap_credentials.rs:141-157 | the four administrator entries read back and every other entry stays |
| `Boot.BootExact` | apps/control-api/src/bootstrap_credentials.rs:48-108 | each secret a boot returns is the first of config, environment and file that is not blank, trimmed, else the new token; the file changes only if a token was used |
| `Boot.BootSettles` | apps/control-api/src/bootstrap_credentials.rs:48-108 | a boot leaves a file from which the secrets it returned are resolved again |
| `Boot.SecretsAreStable` | apps/control-api/src/bootstrap_credentials.rs:48-170 | with the same config and environment every later boot returns the first boot's secrets and writes nothing, whatever boots and administrator rewrites, of any name of at most 12 characters, came between and whatever the file held at first |
| `Catalog.ChannelsExact` | apps/control-api/src/catalog.rs:1358-1375 | a model's channels are strictly sorted and exactly the enabled ones serving it |
| `Catalog.CacheExact` | apps/control-api/src/catalog.rs:933-953 | a cache lookup with an empty default equals computing the channels, for every name, cached or not |
| `Catalog.RuleExact` | apps/control-api/src/catalog.rs:955-973 | a rule-based model gets exactly the strictly sorted set of enabled channels serving some matching model |
| `Catalog.UnknownRuleIsExact` | apps/control-api/src/catalog.rs:1377-1384 | a model with an unknown rule number gets the channels of its own name |
| `Catalog.RuleMatchesExact` | apps/control-api/src/catalog.rs:1377-1384 | where the pattern stands in a matching name: 1 in front, 2 anywhere, 3 at the end, otherwise all of it |
| `Catalog.EnabledNamesExact` | apps/control-api/src/catalog.rs:1386-1402 | the enabled names are those an enabled channel lists or a mapping asks for, strictly sorted |
| `Catalog.EnrichedExact` | apps/control-api/src/catalog.rs:933-975 | the groups, quota types, matched names and their count that enrichment writes, and that the rest stays |
| `Catalog.BuildCache` | apps/control-api/src/catalog.rs:935-943 | the cache holds the channels of every enabled name |
| `Catalog.EnrichByRule` | apps/control-api/src/catalog.rs:955-973 | the inner loop collects the matching names and their channels |
| `Catalog.EnrichOne` | apps/control-api/src/catalog.rs:944-973 | one model, exact ones through the cache, is enriched as specified |
| `Catalog.EnrichModels` | apps/control-api/src/catalog.rs:933-975 | the in-place loop enriches every model of the slice, exact ones through the cache |
| `OrderedSets.SortedSetExact` | apps/control-api/src/catalog.rs:1368-1374 | sorting and removing equal neighbours gives a strictly sorted list of the same elements |
| `OrderedSets.StrictUnique` | apps/control-api/src/catalog.rs:1368-1374 | and there is only one such list |
| `ModelSync.EnsureExact` | apps/control-api/src/model_sync.rs:324-364 | the id that comes back names the vendor asked for, the cache stays right and vendors are only added |
| `ModelSync.UpstreamMap` | apps/control-api/src/model_sync.rs:485-491 | the map of upstream's models has a model of that name under every trimmed name that is not blank, and nothing else |
| `ModelSync.MissingPartition` | apps/control-api/src/model_sync.rs:128-157 | each missing name ends in exactly one of created and skipped, and nothing else is in either |
| `ModelSync.CreatedAreCatalogued` | apps/control-api/src/model_sync.rs:128-157 | every created name is in the catalog afterwards and no model is lost |
| `ModelSync.MissingDistinct` | apps/control-api/src/catalog.rs:977-988 | the missing names are distinct and come from the enabled names |
| `SyncRecords.MissingExact` | apps/control-api/src/catalog.rs:977-988 | a name is missing if and only if it is enabled and no exact model has it |
| `SyncRecords.MissingAppend` | apps/control-api/src/catalog.rs:977-988 | in the order of the enabled names |
| `SyncRecords.MissingOne` | apps/control-api/src/model_sync.rs:128-157 | a missing name is created if and only if upstream has it, no unofficial model has the name, its rule is valid and the name is free; the new model is official with upstream's fields, status and vendor |
| `SyncRecords.StatusChosen` | apps/control-api/src/model_sync.rs:509-517 | a status of 0 is none: upstream's counts, then the local one, then 1 |
| `SyncRecords.FieldWords` | apps/control-api/src/model_sync.rs:388-429 | the seven words a request uses for the fields |
| `ModelSync.OverwrittenExact` | apps/control-api/src/model_sync.rs:388-429 | a listed field takes the upstream value, in any order and however often it is listed; other fields stay |
| `ModelSync.FieldNamesParse` | apps/control-api/src/model_sync.rs:388-429 | the names a preview reports are names a request may use |
| `ModelSync.FieldNamed` | apps/control-api/src/model_sync.rs:388-429 | naming a field in a request, in any case and spacing, lists it |
| `ModelSync.ClearExact` | apps/control-api/src/model_sync.rs:431-483 | overwriting leaves no conflict if and only if it lists every reported field, the status fallback included |
| `ModelSync.OverwritePass` | apps/control-api/src/model_sync.rs:159-193 | the overwrite pass goes on to the end if and only if no request is refused; every model has the upstream values of exactly the fields named by its last listing with a known field, among the requests before the refused one |
| `ModelSync.OverwriteStep` | apps/control-api/src/model_sync.rs:161-192 | one request is refused if and only if it applies, names a known field and would leave the record without a valid name rule; otherwise the target is overwritten from the record the pass began with and the other models stay |
| `SyncPreview.MissingAdds` | apps/control-api/src/model_sync.rs:128-157 | the creating pass keeps the models there were, every model it adds agrees with upstream, and its new vendors are those its names look up |
| `SyncPreview.VendorsGrow` | apps/control-api/src/model_sync.rs:324-364 | looking vendors up adds the names that are not there, each once, with the ids from the highest one on |
| `SyncPreview.SyncKeepsCache` | apps/control-api/src/model_sync.rs:128-193 | through both passes of a sync, refused or not, the vendor cache maps each name to its catalog id, ids and names tell records apart, and the new vendors and their ids are known from the catalog before |
| `SyncPreview.RefusedExact` | apps/control-api/src/model_sync.rs:128-193 | a sync is refused if and only if some request applies to a model there was, names a known field and would leave it without a valid name rule |
| `SyncPreview.SyncExact` | apps/control-api/src/model_sync.rs:62-193 | preview, sync, preview, for every catalog and refused syncs too: a model is listed again if and only if it was there, is official, and the last effective request naming a known field of it left out a field in which it differs, its vendor id read with the new vendors |
| `SyncPreview.PreviewExact` | apps/control-api/src/model_sync.rs:62-193 | the second preview is other than the first lets expect if and only if the model has the id of a vendor the sync creates, upstream names no vendor or that one, and nothing but the vendor is left unlisted |
| `SyncPreview.IdTaken` | apps/control-api/src/model_sync.rs:324-364 | without requests, a model with the id of a vendor to be created that differs at most in the vendor is listed afterwards if and only if upstream names another vendor |
| `SyncPreview.DanglingIdTaken` | apps/control-api/src/catalog.rs:1306-1318 | a catalog that the store accepts, with a vendor id that is no vendor's: an unlisted model is listed after a sync that requested nothing of it, and a listed one no more |
| `ModelSync.SecondListingWins` | apps/control-api/src/model_sync.rs:159-193 | an overwrite starts from the record as the pass found it, so a model listed twice loses its first overwrite |
| `ModelSync.ModelSyncService.EnsureVendorId` | apps/control-api/src/model_sync.rs:324-364 | looks up, creates and remembers a vendor |
| `ModelSync.ModelSyncService.SyncMissing` | apps/control-api/src/model_sync.rs:128-157 | the creating loop |
| `ModelSync.ModelSyncService.OverwriteOne` | apps/control-api/src/model_sync.rs:161-192 | one overwrite request, with the state it leaves: a refused record changes no model, and its vendor stays |
| `ModelSync.ModelSyncService.Overwrite` | apps/control-api/src/model_sync.rs:159-193 | the overwriting loop: it stops at the first refusal and what was stored before stays |
| `ModelSync.ModelSyncService.SyncUpstream` | apps/control-api/src/model_sync.rs:104-197 | both passes and the state they leave, refused or not |
| `UsageViews.QuotaDataRecords` | apps/control-api/src/api_usage.rs:887-972 | the saturating loop: every group's count and tokens are its totals capped at the 64-bit limit, its quota is the saturating sum in order, and all are the plain totals when nothing can saturate |
| `UsageViews.QuotaCapped` | apps/control-api/src/api_usage.rs:887-972 | when no quota is negative, a group's quota too is its total, capped |
| `UsageViews.GroupsConserve` | apps/control-api/src/api_usage.rs:887-972 | in each of the three breakdowns the groups together hold the count, tokens and quota of the selected events |
| `UsageViews.BreakdownsAgree` | apps/control-api/src/api_usage.rs:927-936 | the model and the user breakdown are sums of the joint breakdown's groups |
| `UsageViews.KeyExact` | apps/control-api/src/api_usage.rs:887-972 | which events a query counts, and under which user, model and full hour |
| `UsageViews.WeightExact` | apps/control-api/src/api_usage.rs:887-972 | an event counts once, with its tokens and its quota, or its tokens as far as they fit when it has none |
| `UsageViews.UsageTotals` | apps/control-api/src/options_util.rs:671-687 | the loop computes the token total per model, modulo 2^64 |
| `UsageViews.UsageBuckets` | apps/control-api/src/options_util.rs:855-872 | the loop computes the token total per model and time bucket, modulo 2^64 |
| `UsageViews.RankingKeysExact` | apps/control-api/src/options_util.rs:671-687 | which events a ranking counts, and that a bucket starts at the multiple of its width at or before the event |
| `UsageViews.NothingWraps` | apps/control-api/src/options_util.rs:671-687 | nothing wraps when all the tokens together fit 64 bits |
| `UsageViews.BucketsSumToTotals` | apps/control-api/src/options_util.rs:766-779 | a model's 64-bit buckets, of any width and whatever wraps, add up modulo 2^64 to its 64-bit total |
| `UsageViews.VendorTotalsAgree` | apps/control-api/src/options_util.rs:809-828 | a vendor's total modulo 2^64 is the same from the 64-bit model totals as from the 64-bit buckets, whatever wraps |
| `Grouping.Rollup` | apps/control-api/src/options_util.rs:776-779 | the second-level loop sums a map's entries under a coarser key modulo 2^64, in any order |
| `Grouping.WrapSum` | apps/control-api/src/options_util.rs:776-779 | adding up 64-bit entries modulo 2^64 is adding up the entries modulo 2^64 |
| `Grouping.SumOverIsTotal` | apps/control-api/src/api_usage.rs:905-964 | summing any part of a grouped map gives the plain total of the items in that part |
| `Grouping.CoarserGroup` | apps/control-api/src/api_usage.rs:927-936 | grouping by a coarser key is summing the finer groups under it |

## Left out

- SQL backends, migrations and row decoding: the in-memory stores hold the logic that is modelled.
- HTTP routing, authentication, sessions, passkeys and two-factor flows: plumbing, or code that is not part of this model.
- JSON text: documents are modelled as trees, so parsing, printing and field order are not.
- The handling of malformed or empty setting texts before the merge (crates/control-plane/src/management.rs:2141-2159).
- Usage pricing and quota arithmetic of a settlement (crates/control-plane/src/management.rs:1443 onwards): a settlement is one atomic event here.
- Disabling a whole channel from feedback: the model covers the disabling of one key of several.
- Sorting, truncation, shares and growth of the rankings, and the ordering and numbering of quota records: they would only add easy members.
- Prefill and proxy records, balances, channel tests and process metrics: one-step facts or network calls.
- Calendar.CivilCountsBack: dates are over unbounded integers, so the casts to 32-bit years and 64-bit overflow are not modelled.
- Redeeming.BalanceIsReceived: a balance starts at zero and only these credits change it; usage and other adjustments are not in the runs.
- SyncPreview.SyncExact: the catalog's own validation of a record is modelled by the fields the sync writes.
- MultiKeyStore.MultiKeyChannel.Manage: the update's other channel fields, and its refusal of invalid model mappings, are not part of the channel here; index texts in the settings are the ones the program writes.
- PercentEncoding.CodexBodyReads: a value is a sequence of bytes; UTF-8 encoding of the text is not modelled.
