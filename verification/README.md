# Verification of the TTRPG Codex core

This project models the parts of the Codex host and of its browser app whose correctness depends on more than one
function, and proves what they promise. Every model does what the code does, branch by branch; every class method is
proved against a function or a step relation, and the theorems are about those. One module models one component:

| modules | component |
|---|---|
| `StagedRestore` | the restore that is installed inside the data directory and can be resumed after any crash |
| `TopologicalOrder`, `GenerationScopes`, `GenerationProtocol`, `GenerationHistory`, `GenerationManagers` | activation and disposal of add-on generations |
| `SessionProtocol`, `Sessions` | sign-in sessions in memory over a durable store that may fail |
| `CampaignRecords`, `RecordRules`, `Twins`, `Timeline` | optimistic commits, what the store asks of a record, twin records, and the timeline as a lens |
| `RelationshipKeys`, `Relationships`, `RelationshipRows` | relationship keys, the relationship editor's plan, and what its rows become |
| `RecordPatches`, `PatchedFields` | the three-way field patch, and what it stores |
| `UpdateAll` | the batch update of add-ons |
| `GraphMotions` | the elastic graph draft and its sorted collision sweep |
| `EventLog`, `EventBroker` | the change log with replay and retention, and live subscribers |
| `BackupArchives`, `BackupWriter` | the backup archive's reader and writer |
| `BackupBundles` | the import checks of a backup bundle |
| `WriteProtocol`, `WriteController` | the campaign write queue and the busy leases |
| `EditHandoffs` | drafts that survive the reload of an add-on |
| `Results`, `Collections`, `Words` | shared datatypes and facts about sequences, sets and 64-bit words |

Code that suspends, such as promises and crashes, is a state machine over its suspension points: an atomic step is what
runs between two of them, and a theorem about every step or every run covers every interleaving. A crash is modelled by
`fuel`: each disk operation uses one unit, and the process stops where it stands when none is left, so a contract that
holds for every amount of fuel holds for a crash between any two disk operations. Clocks, random tokens, digests, JSON
and ZIP coding, SQLite and migrations are parameters; what a theorem needs of them is a precondition.

## What was found

- A crash between creating the first journal of a staged restore and writing it leaves a journal that does not decode.
  Nothing is lost, but every later start and every further staging is refused. No other crash of the staging does that
  (`StagedRestore.DataDirectory.CrashedStage`, `StagedRestore.DataDirectory.Blocked`). Later journals are written beside
  the old one and renamed, and have no such moment.
- An archive that was written is restored exactly, with the same paths, modes and bytes, if and only if every path
  survives JSON's replacement of what is not UTF-8, no file has mode zero or a permission that the process withholds
  from the files it creates, and the replacement does not make the version too long; the writer does not refuse the
  others (`BackupWriter.PublishedIsRestoredExactly`, and `BackupWriter.UncleanPathIsLost`, `BackupWriter.ModeZeroIsLost`,
  `BackupWriter.MaskedModeIsLost` and `BackupWriter.UncleanVersionIsLost` for backups that do not come back as they were).
- A saved relationship counts as the character's own if and only if the character's key has no white space around it
  (`Relationships.DesiredInvolves`; `Relationships.PaddedKeyLosesItsLink` for a plan that is accepted and not shown).
- The browser and the server give a relationship the same key if and only if no part of it holds `&`, `<`, `>` or one
  of the separators U+2028 and U+2029, which only the server's JSON escapes (`RelationshipKeys.KeysAgree`). A new
  relationship of a type such as `x&y` is planned and never stored (`Relationships.MarkupLinkIsRefused`), and one that an
  import has stored makes saving the rows of its character as they were opened fail
  (`Relationships.MarkupLinkBlocksItsCharacter`).
- A relationship that the editor removed cannot be added again: the editor expects revision zero for every key it
  creates, while the server keeps the revision of a deleted key (`Relationships.RemovedCannotReturn`;
  `Relationships.RemovedLinkIsRefused` for two plans of the editor).
- The editor refuses more than 499 changes to stay within a transaction of 500, but the server also writes the source of
  every relationship that changes: 250 new links from other characters are planned and refused
  (`Relationships.ManyIncomingLinksAreRefused`).
- Together: a plan is saved if and only if none of the keys it creates has ever been stored, browser and server agree on
  every key, and the plan with the characters it touches is within the limits (`Relationships.PlanCommits`).
- The order of the targets of a batch update does not matter while an active update can only unblock others
  (`UpdateAll.RunsAgree`). Otherwise it can: of two add-ons that block each other the batch updates whichever comes first
  (`UpdateAll.UnsteadyOrderMatters`).
- The claimed sizes of a bundle can wrap the 64-bit total, and the first loop lets them pass
  (`BackupBundles.ClaimedSizesCanWrap`, `BackupBundles.Inventory`); the later comparison with the declared sizes is what
  rules it out (`BackupBundles.SmallSizesDoNotWrap`, `BackupBundles.CheckBundle`). The total of a full backup wraps only
  under limits near the end of the 64 bits (`BackupArchives.SmallTotalsDoNotWrap`, `BackupArchives.LargeLimitsCanWrap`).
- A password change checks its caller, releases the session lock and takes it again to commit. A caller that is revoked
  in between stays signed out, and the password changes (`SessionProtocol.CallerRevokedMeanwhile`).
- Separating two cards takes them apart unless the bound of the plane clamps one of them
  (`GraphMotions.SeparatedCardsAreApart`, `GraphMotions.CardsAtTheBoundCanOverlap`).

## Model

| member | source | states |
|---|---|---|
| StagedRestore.NoOriginalEntryIsLost | internal/backuparchive/staged.go:106-176 | while a restore is under way and no run has validated the installed database, every original entry is unchanged and in exactly one of the data directory and the previous directory |
| StagedRestore.NoStagedEntryIsLost | internal/backuparchive/staged.go:143-169 | until a start begins validating, every staged entry, the database included, is unchanged and in exactly one of the stage and the data directory; from then on so is every other one, and the database files are those the last validation left |
| StagedRestore.DataDirectory.FinishStagedRestore | internal/backuparchive/staged.go:108-176 | whatever the journal says and however early the process stops, a pending restore stays pending and loses no staged entry; it is never refused with "already exists"; validation is handed the staged database files, or what the validation before it left; a run that ends installs exactly the staged entries with what validation left and the untouched credentials, or reports a rejected database; a run is only cut short when it had fewer operations than the moves need |
| StagedRestore.DataDirectory.Restart | internal/backuparchive/staged.go:108-176 | over every sequence of crashes and reruns: the restore is pending or installed, no staged entry is lost at all and no original entry before validation, each validation is handed what the one before it left, the first the staged database, and one accepted start that is not cut short installs it |
| StagedRestore.DataDirectory.Stage | internal/backuparchive/staged.go:47-104 | changes only the stage and the journal; when it completes, a restore of the running installation is pending; it is stopped exactly when it has too few operations, and leaves a journal, one that does not decode, exactly when all but the last was done |
| StagedRestore.DataDirectory.CrashedStage | internal/backuparchive/staged.go:47-104 | after a crash of the staging the next start finds an invalid journal if the crash came between creating the journal and writing it, and nothing pending after any other crash |
| StagedRestore.DataDirectory.Blocked | internal/backuparchive/staged.go:54-122 | from a journal that does not decode every sequence of starts and stagings is refused and leaves the directory as it is |
| StagedRestore.DataDirectory.PrepareStage | internal/backuparchive/staged.go:70-91 | a refused archive leaves the directory as it was; an accepted one is beside it with the migrated database |
| StagedRestore.DataDirectory.WriteRestoreJournal | internal/backuparchive/restore.go:305-332 | a crash before the file is created leaves everything as it was, one after that leaves it empty |
| StagedRestore.DataDirectory.AdvanceJournal | internal/backuparchive/staged.go:178-189 | the journal is the old or the new one at every moment |
| StagedRestore.DataDirectory.MoveEntries | internal/backuparchive/staged.go:191-214 | exactly a set of entries has moved, unchanged; it is complete when the loop ends, and an existing entry is never replaced |
| StagedRestore.DataDirectory.RunPhases | internal/backuparchive/staged.go:131-164 | from any recorded phase the phases fall through to an installed stage with the database as it is due, or stop resumable |
| StagedRestore.DataDirectory.Conclude | internal/backuparchive/staged.go:165-175 | validation is handed the database files that are due; the previous copy and the journal go only after it accepted them |
| StagedRestore.DataDirectory.RemovePrevious | internal/backuparchive/staged.go:172-174 | removes the previous directory entry by entry and nothing else |
| StagedRestore.ReservedNamesAreDistinct | internal/backuparchive/staged.go:93-130 | the reserved names never meet staged or database names |
| StagedRestore.NothingToReplaceOnTheWayOut | internal/backuparchive/staged.go:143-149 | no entry that moves out exists in the previous directory |
| StagedRestore.NothingToReplaceOnTheWayIn | internal/backuparchive/staged.go:151-161 | no staged entry exists in the data directory when it moves in |
| TopologicalOrder.Sort | frontend/src/addons/generation-manager.ts:580-612 | terminates; returns every key once with dependencies first, and fails exactly for a cycle or a missing dependency |
| TopologicalOrder.Visit | frontend/src/addons/generation-manager.ts:584-606 | one depth-first visit keeps the walk and fails only with a genuine cycle or missing dependency |
| TopologicalOrder.OrderedGraphIsSound | frontend/src/addons/generation-manager.ts:580-612 | a graph that has a topological order has neither a cycle nor a missing dependency |
| TopologicalOrder.OrderExists | frontend/src/addons/generation-manager.ts:580-612 | and one that has neither can be ordered |
| GenerationScopes.GenerationScope.Add | frontend/src/addons/generation-scope.ts:62-74 | registers a disposer only while the scope is active |
| GenerationScopes.GenerationScope.Release | frontend/src/addons/generation-scope.ts:71-73 | transfers ownership away unless the disposer was started |
| GenerationScopes.GenerationScope.Dispose | frontend/src/addons/generation-scope.ts:82-90 | only the first call has an effect |
| GenerationScopes.GenerationScope.Settled | frontend/src/addons/generation-scope.ts:92-110 | a failing disposer is recorded and does not stop the drain |
| GenerationScopes.GenerationScope.Drain | frontend/src/addons/generation-scope.ts:92-110 | whatever fails, every disposer still owned runs once, last first |
| GenerationScopes.ReverseOrderIsUnique | frontend/src/addons/generation-scope.ts:94-105 | that order is the only one of its kind |
| GenerationProtocol.StepKeepsValid | frontend/src/addons/generation-manager.ts:209-323 | the invariant (closed active set, live scopes of their own, sound queue) holds at every suspension point of every interleaving |
| GenerationProtocol.RunsKeepValid | frontend/src/addons/generation-manager.ts:209-414 | so it does over every run from the start |
| GenerationProtocol.ActiveSetIsSound | frontend/src/addons/generation-manager.ts:380-388 | the active set contains its dependencies, every active scope is live, and planning the stop of everything cannot throw |
| GenerationProtocol.StopsDependentsFirst | frontend/src/addons/generation-manager.ts:388-412 | what has stopped is not needed by anything still active |
| GenerationProtocol.DisposeIsFinal | frontend/src/addons/generation-manager.ts:220-247 | after a call of dispose nothing enters the active set until reconcile is called, and when all has settled it is empty |
| GenerationProtocol.CallDisposeMakesQuiet | frontend/src/addons/generation-manager.ts:220-247 | dispose overtakes an activation in flight and outdates every queued reconcile at once |
| GenerationProtocol.ReconcileAccountsForItsTarget | frontend/src/addons/generation-manager.ts:249-323 | a reconcile that completes has made every target add-on active as described or reported it, and reports only what is not active or truly lacks a dependency |
| GenerationHistory.ReportedWasAwaited | frontend/src/addons/generation-manager.ts:284-313 | over every run, an add-on is reported as failed only if its activation was awaited in this very reconcile and was rejected |
| GenerationHistory.SuccessActivatesAll | frontend/src/addons/generation-manager.ts:249-323 | over every run, a reconcile that completes and whose activations all succeeded reports nothing and leaves exactly the add-ons of its target active, as described |
| GenerationHistory.ActiveWasActivated | frontend/src/addons/generation-manager.ts:284-293 | over every run, whatever is active was awaited as the pending generation and succeeded while its scope was open |
| GenerationHistory.AbortedWasOvertaken | frontend/src/addons/generation-manager.ts:315-327 | a reconcile aborts only if a dispose was called after it |
| GenerationProtocol.StepsProgress | frontend/src/addons/generation-manager.ts:249-323 | every step that is not a new call brings the manager closer to rest: its queue, then the running operation, then the scopes that drain |
| GenerationProtocol.NeverStuck | frontend/src/addons/generation-manager.ts:249-323 | while work is left such a step can happen: the next operation can begin, the running one can go on, or the scope it awaits is draining |
| GenerationManagers.BrowserGenerationManager.Reconcile | frontend/src/addons/generation-manager.ts:209-218 | refuses exactly unorderable targets, without effect; otherwise takes the protocol's step |
| GenerationManagers.BrowserGenerationManager.Dispose | frontend/src/addons/generation-manager.ts:220-247 | takes the protocol's dispose step |
| GenerationManagers.BrowserGenerationManager.StartNext | frontend/src/addons/generation-manager.ts:249-263 | the next queued operation begins as one step |
| GenerationManagers.BrowserGenerationManager.Resume | frontend/src/addons/generation-manager.ts:266-323 | each continuation after an awaited promise is one step |
| GenerationManagers.BrowserGenerationManager.StopAll | frontend/src/addons/generation-manager.ts:380-414 | the stop order is the reverse of a topological order, and the sort never throws here |
| SessionProtocol.StepKeepsValid | internal/auth/session.go:136-275 | every operation keeps: a stored session that is usable is in memory with the same record, at most the maximum of sessions, at most eight previews of a parent |
| SessionProtocol.RunsKeepValid | internal/auth/session.go:136-275 | the same over every run of sign-ins, previews, revocations, password changes, resets and restarts with failing writes |
| SessionProtocol.NothingIsRevived | internal/auth/session_store.go:31-62 | a session that is not usable at one moment of a run, expired, revoked or orphaned, is never usable later, restarts included |
| SessionProtocol.SignInIsExact | internal/auth/session.go:136-247 | a sign-in is granted if and only if the password is the DM's or the player's, what expired can be removed, there is room, the token is unused and the session can be saved; the session is a DM's exactly for the DM's password, has no parent, lasts the lifetime, is usable at once and disturbs no other |
| SessionProtocol.PreviewIsExact | internal/auth/player_preview.go:15-58 | a preview is granted if and only if a usable sign-in of the DM asks for it, has fewer than eight, and it fits and can be saved; it is a player's, for an hour or as long as its parent |
| SessionProtocol.RevokedIsOut | internal/auth/session.go:200-215 | signing out ends that session and its previews and no other, restarts included; a failed write changes nothing |
| SessionProtocol.RestartKeepsStoredSessions | internal/auth/session_store.go:31-62 | exactly the stored usable sessions survive a restart, and they were usable before it |
| SessionProtocol.PasswordChangeRevokes | internal/auth/credentials.go:168-191 | the revoked sessions are gone from the store before the new password can commit, and from memory when it has |
| SessionProtocol.CommitIsExact | internal/auth/credentials.go:168-191 | a commit succeeds if and only if the sessions it ends can be removed and the password can be saved; otherwise the passwords and the sessions in memory stay |
| SessionProtocol.PasswordsChangeWhenAccepted | internal/auth/credentials.go:133-191 | over every run, the passwords in force change only by a restart or by a change accepted from a usable session of the DM with its request token, the DM's password and the current revision, and then only the one asked for |
| SessionProtocol.RunsKeepPasswordsSound | internal/auth/credentials.go:49-191 | over every run, two passwords of permitted length that differ stay so |
| SessionProtocol.RestartIsExact | internal/auth/session_store.go:31-62 | a start succeeds if and only if what expired can be removed, and takes up the saved passwords |
| SessionProtocol.ResetTakesOver | internal/auth/credentials.go:49-68 | after a reset and a restart nobody is signed in and exactly the two new passwords open a session; a reset that fails leaves the old ones |
| SessionProtocol.PasswordChangeKeepsCaller | internal/auth/credentials.go:133-191 | after the commit the caller is signed in exactly if it was when the commit began, and only the changed role's password changes |
| SessionProtocol.CallerRevokedMeanwhile | internal/auth/credentials.go:139-169 | between the checks and the commit the caller can be revoked, and then stays signed out; otherwise it stays signed in |
| SessionProtocol.RunsKeepChange | internal/auth/credentials.go:133-169 | over every run a change under way is that of a DM, if its session still exists, and its password is still valid for the current credentials |
| SessionProtocol.PreviewDependsOnItsParent | internal/auth/player_preview.go:61-88 | a usable preview belongs to a usable DM sign-in, does not outlive it and ends with its revocation |
| SessionProtocol.InspectAnswersUsable | internal/auth/session.go:159-179 | inspection answers exactly for unexpired sessions whose parent, if they have one, is an unexpired sign-in of the DM, and ends no other |
| SessionProtocol.ForgettingKeepsCovered | internal/auth/session.go:159-179 | expiry that deletes only from memory hides no usable stored session |
| Sessions.Service.PruneExpired | internal/auth/session.go:261-275 | deletes exactly the unusable sessions from both, or nothing when the store refuses |
| Sessions.Service.Create | internal/auth/session.go:217-247 | does what the protocol's creation does, step by step |
| Sessions.Service.Login | internal/auth/session.go:136-152 | takes the protocol's step: the role of the password, or a refusal, and whether the session is granted |
| Sessions.Service.CountPreviews | internal/auth/player_preview.go:34-39 | the loop counts the previews of the parent |
| Sessions.Service.CreatePlayerPreview | internal/auth/player_preview.go:15-59 | does the protocol's preview |
| Sessions.Service.Inspect | internal/auth/session.go:159-179 | does the protocol's inspection |
| Sessions.Service.InspectPlayerPreview | internal/auth/player_preview.go:61-77 | does the protocol's preview lookup |
| Sessions.Service.Revoke | internal/auth/session.go:200-215 | does the protocol's revocation |
| Sessions.Service.AuthorizeChange | internal/auth/credentials.go:133-158 | does the protocol's checks of a password change |
| Sessions.Service.CommitChange | internal/auth/credentials.go:159-191 | does the protocol's commit of it, in its order of writes |
| Sessions.Service.ResetCredentials | internal/auth/credentials.go:49-68 | does the protocol's offline reset |
| Sessions.Service.Start | internal/auth/session_store.go:31-62 | does the protocol's restart |
| CampaignRecords.CommitsWhenCurrent | internal/storage/sqlite/campaignstore/store.go:231-345 | once a transaction is prepared, its loop over distinct keys succeeds exactly when each mutation expects the stored revision, a deleted key's included, and deletes only what is there |
| CampaignRecords.CommitEffect | internal/storage/sqlite/campaignstore/store.go:214-345 | what a commit leaves at every key: the next revision of the record, or of its deletion |
| CampaignRecords.OverwritesCommit | frontend/src/app/campaign-timeline.ts:180-201 | overwriting existing records commits, and the collection read back is the updated one |
| RecordRules.TransactsWhenCurrent | internal/storage/sqlite/campaignstore/store.go:214-345 | a transaction of distinct keys succeeds exactly when every mutation is prepared, keys, identities and visibilities included, and current |
| RecordRules.TransactKeepsSound | internal/storage/sqlite/campaignstore/store.go:493-538 | every transaction keeps: revisions count from one and every record is stored under the key its value names |
| Timeline.TimelineColumns | frontend/src/app/campaign-timeline.ts:34-44 | computes the campaign's projection: shown events by session, in stored order, ties by place |
| Timeline.ProjectionIsUnique | frontend/src/app/campaign-timeline.ts:34-44 | a campaign has exactly one projection |
| Timeline.PrepareTimelineReorder | frontend/src/app/campaign-timeline.ts:137-201 | refuses invalid, stale and oversized drafts as the specification says, and otherwise returns a plan |
| Timeline.StaleIsExact | frontend/src/app/campaign-timeline.ts:137-160 | a draft is refused as stale if and only if its base is well-formed and an event was added, removed or changed since it was made |
| Timeline.PutGet | frontend/src/app/campaign-timeline.ts:137-201 | saving a draft and projecting again gives the draft's columns by session, skipped columns and hidden twins included |
| Timeline.GetPut | frontend/src/app/campaign-timeline.ts:180-198 | columns that did not change yield no mutation |
| Timeline.UntouchedDraftSavesNothing | frontend/src/app/campaign-timeline.ts:46-54 | an untouched draft is accepted and saves nothing |
| Timeline.PlanCommits | frontend/src/app/campaign-timeline.ts:180-201 | the plan is stored if and only if there is one, it is within 500 mutations and every event still fits; the campaign read back is then the updated one |
| Timeline.MoveIsExact | frontend/src/app/campaign-timeline.ts:93-121 | a move takes one key out of its session and puts it at the index asked for, and every other key keeps its place |
| Timeline.MoveArranges | frontend/src/app/campaign-timeline.ts:93-121 | a move loses and doubles no event and leaves columns non-empty and strictly ordered |
| Timeline.MovesArrange | frontend/src/app/campaign-timeline.ts:93-121 | the same over any sequence of moves |
| Timeline.DraggedDraftIsSaved | frontend/src/app/campaign-timeline.ts:137-201 | a draft that was dragged any number of times is refused only for its size, and once saved is what the campaign shows |
| Timeline.EnteringEventIsLast | frontend/src/app/campaign-timeline.ts:72-84 | an event that enters a session is listed last in it |
| Timeline.ChecksDecideValidity | frontend/src/app/campaign-timeline.ts:160-179 | the checks of the draft hold exactly when it lists each visible event once in non-empty columns of valid sessions |
| RelationshipKeys.ParseStringified | frontend/src/app/campaign-record-editor.ts:961-968 | what `JSON.stringify`, or the server's coder, writes for three strings reads back as them, section 7 of RFC 8259 |
| RelationshipKeys.DecodeUtf8 | frontend/src/app/campaign-record-editor.ts:961-968 | well-formed text reads back from its UTF-8 encoding, section 3 of RFC 3629 |
| RelationshipKeys.DecodeBase64Url | frontend/src/app/campaign-record-editor.ts:961-968 | bytes read back from unpadded base64url, section 5 of RFC 4648 |
| RelationshipKeys.KeyDeterminesTriple | frontend/src/app/campaign-record-editor.ts:961-968 | a key, whichever side made it, determines the source, target and type it was made of |
| RelationshipKeys.KeysAreInjective | frontend/src/app/campaign-record-editor.ts:961-968 | distinct triples have distinct keys, whichever sides made them |
| RelationshipKeys.KeysAgree | internal/domain/campaign/collection.go:139-160 | browser and server make the same key if and only if no part holds a character that only the server escapes |
| RelationshipKeys.RawUrlIsBase64Url | internal/domain/campaign/collection.go:158-159 | the browser's three calls write what the server's unpadded URL encoding writes |
| Relationships.PrepareRelationshipMutations | frontend/src/app/campaign-record-editor.ts:993-1117 | the loops compute the plan: what the rows no longer ask for is deleted, what changed is put, and nothing of another row is taken over |
| Relationships.PlanIsDistinct | frontend/src/app/campaign-record-editor.ts:1085-1117 | no record is mutated twice |
| Relationships.PlanCommits | frontend/src/app/campaign-record-editor.ts:1099-1117 | the plan is saved if and only if the keys it creates have never been stored, browser and server agree on every key, and it is within the limits of size and number |
| Relationships.LinkIsStorable | internal/domain/campaign/collection.go:104-160 | the server takes a desired relationship if and only if the keys agree, the key is within 1024 bytes and the value fits |
| Relationships.MarkupLinkIsRefused | frontend/src/app/campaign-record-editor.ts:961-968 | for example: a new relationship of the type "x&y" is planned, and no server stores it |
| Relationships.MarkupLinkBlocksItsCharacter | frontend/src/app/campaign-record-editor.ts:932-959 | and one that is stored under the server's key makes the unedited rows of its character a plan that is refused |
| Relationships.ManyIncomingLinksAreRefused | internal/application/campaigndata/activity.go:29-63 | any 250 to 499 new links from distinct characters are planned and refused |
| Relationships.RemovedCannotReturn | frontend/src/app/campaign-record-editor.ts:1099-1113 | after a relationship was removed, every later plan that asks for it is refused |
| Relationships.RemovedLinkIsRefused | frontend/src/app/campaign-record-editor.ts:1085-1117 | for example: a plan without rows removes a stored relationship, and the plan that asks for it again is made and refused |
| Relationships.StoredKeysAreFree | frontend/src/app/campaign-record-editor.ts:961-991 | what is stored under the key of a desired relationship is the character's own, unless the character's key has white space around it |
| Relationships.SavedPlan | frontend/src/app/campaign-record-editor.ts:993-1117 | saving leaves the desired relationships, none of the character's others, and everything else untouched |
| RelationshipRows.SavedRowsAreTheLinks | frontend/src/app/campaign-record-editor.ts:1065-1117 | after a save, each link that a row asks for, two for a row of both directions, is stored with the row's label and visibility, public for a new row without one, and the fields it keeps; and every relationship of the character is one that a row asks for |
| RelationshipRows.DesiredIsAsked | frontend/src/app/campaign-record-editor.ts:1065-1090 | a link is desired if and only if a row asks for it in its direction |
| RelationshipRows.EntryFulfils | frontend/src/app/campaign-record-editor.ts:1065-1090 | each direction of an accepted row holds the row's ends, type, label and visibility, and only the first keeps the fields of the record it was opened from |
| RelationshipRows.AcceptedIsExact | frontend/src/app/campaign-record-editor.ts:1010-1090 | the rows are accepted if and only if each is permitted, no record is edited twice and no link is asked for twice |
| Relationships.CharacterHasWhatWasAsked | frontend/src/app/campaign-record-editor.ts:993-1117 | saving succeeds if and only if it asks for no relationship that was deleted before, browser and server agree on every key and the plan is within the limits, and then the character's relationships are exactly the desired set |
| Relationships.DesiredInvolves | frontend/src/app/campaign-record-editor.ts:981-991 | a saved relationship counts as the character's if and only if the character's key has no white space around it |
| Relationships.PaddedKeyLosesItsLink | frontend/src/app/campaign-record-editor.ts:981-1117 | for example: the key " a" has its new relationship planned and stored, is not shown it, and is refused when it asks again |
| Relationships.UneditedRowsSaveNothing | frontend/src/app/campaign-record-editor.ts:932-959 | unedited rows over well-formed records, stored under the browser's keys, yield no mutation |
| RecordPatches.PrepareCharacterPatch | frontend/src/app/campaign-record-editor.ts:109-195 | a record that is gone is stale; otherwise the loop over the fields computes what the patch stores over the current record, with its revision |
| PatchedFields.PatchIsStored | frontend/src/app/campaign-record-editor.ts:146-172 | every key of a saved patch: the trimmed text, the option, the list or the attitudes it gives, its pair of chain and rank, its visibility; the rank and, in the party, the attitudes reset by another faction; and otherwise what was stored |
| PatchedFields.StaleIsExact | frontend/src/app/campaign-record-editor.ts:120-145 | a patch is stale if and only if its base is no past revision or no object, or a key it touches was changed meanwhile and all its fields are known |
| PatchedFields.AcceptedIsExact | frontend/src/app/campaign-record-editor.ts:109-194 | a patch that is not stale is saved if and only if every field is known and its value accepted, its visibility may be set and its portrait fits |
| PatchedFields.OutcomeIsExact | frontend/src/app/campaign-record-editor.ts:759-895 | which value each kind of field accepts, and what it stores for it |
| PatchedFields.NormalizedKeepsFirsts | frontend/src/app/campaign-record-editor.ts:1300-1316 | a list keeps the trimmed items in order, of those that differ in case only the first, without blanks |
| RecordPatches.PatchChangesOnlyItsKeys | frontend/src/app/campaign-record-editor.ts:196-213 | a patch changes only keys in its patch keys |
| RecordPatches.PatchReadsOnlyItsKeys | frontend/src/app/campaign-record-editor.ts:109-195 | whether it applies, and what it writes, depends only on what is stored at its keys |
| RecordPatches.DisjointPatchesCommute | frontend/src/app/campaign-record-editor.ts:109-213 | patches with disjoint keys both apply in either order and give the same record |
| UpdateAll.UpdateAll | frontend/src/app/addon-update-all.ts:122-169 | terminates and returns what its passes compute; every target is updated or reported, each update justified by the ones before it, each report current |
| UpdateAll.BatchIsExplained | frontend/src/app/addon-update-all.ts:122-169 | every update was activated without error with the grants its review suggested; every report has the reason of its last attempt, with all updates active if it is that the add-on is blocked |
| UpdateAll.IssueIsExact | frontend/src/app/addon-update-all.ts:99-113 | which issue a review gives: its other blockers in order, else saved data, else that it is off, else the permissions newly asked for, each once |
| UpdateAll.BatchIsLeastFixedPoint | frontend/src/app/addon-update-all.ts:122-169 | while active updates only unblock, the batch updates exactly the least fixed point |
| UpdateAll.OrderDoesNotMatter | frontend/src/app/addon-update-all.ts:122-169 | then the order of the targets changes neither the updates nor the reports of a sound outcome |
| UpdateAll.RunsAgree | frontend/src/app/addon-update-all.ts:122-169 | so two runs over the same targets return the same updates and the same reports |
| UpdateAll.UnsteadyOrderMatters | frontend/src/app/addon-update-all.ts:122-169 | otherwise it can: of two add-ons that block each other the batch updates whichever comes first and reports the other as blocked |
| UpdateAll.InOneList | frontend/src/app/addon-update-all.ts:122-169 | every target is in exactly one of the two lists |
| UpdateAll.UpdatePlan | frontend/src/app/addon-update-all.ts:53-71 | an add-on is a target, reported or has no update, never skipped |
| UpdateAll.ApprovedAsksForNothingNew | frontend/src/app/addon-update-all.ts:99-116 | a review without an issue asks for no permission that was not granted and has no blocker |
| GraphMotions.GraphMotion.Collisions | frontend/src/app/campaign-graph-motion.ts:191-233 | the sorted sweep resolves, each once, exactly the pairs the all-pairs test finds overlapping in the overlap closure of the affected cards, as long as no card moves in it and it is complete, which it is if and only if the comparisons of the cards it affects fit the pair budget; the draft is what resolving them in order leaves |
| GraphMotions.GraphMotion.SweepCard | frontend/src/app/campaign-graph-motion.ts:206-231 | the binary search and the window miss no overlap of a card; the comparisons are counted exactly, and only the pair budget leaves it unfinished |
| GraphMotions.LowerBound | frontend/src/app/campaign-graph-motion.ts:209-215 | the binary search finds the first box at or past the edge |
| GraphMotions.AffectedIsClosure | frontend/src/app/campaign-graph-motion.ts:204-232 | the cards affected by a complete sweep are the overlap closure of those before it |
| GraphMotions.GraphMotion.Step | frontend/src/app/campaign-graph-motion.ts:68-126 | a step is springs, then pushes, then velocities; the held card never moves, unaffected cards do not either, and positions stay within the bound; it settles after 180 steps or three quiet ones |
| GraphMotions.StepResolvesExactly | frontend/src/app/campaign-graph-motion.ts:81-95 | a step resolves only overlaps reached from the affected cards, each once; its sweep is complete if and only if the comparisons of all cards that overlaps lead to fit the pair budget, and then it resolves all of them |
| GraphMotions.CompleteWithinBudget | frontend/src/app/campaign-graph-motion.ts:202-233 | while no card moves, a sweep is complete if and only if the comparisons of the overlap closure fit the pair budget, and then that closure is what it affects |
| GraphMotions.WindowIsCounted | frontend/src/app/campaign-graph-motion.ts:216-220 | looking at boxes of a card's window takes one comparison each, the whole window all the comparisons of that card |
| GraphMotions.SmallGraphsFitTheBudget | frontend/src/app/campaign-graph-motion.ts:22-26 | up to 223 cards the comparisons of any sweep fit the budget |
| GraphMotions.GraphMotion.Snap | frontend/src/app/campaign-graph-motion.ts:135-169 | cards almost at rest return, then at most 16 passes move overlapping cards apart until one finds nothing; velocities end |
| GraphMotions.CalmSnapLeavesNoOverlap | frontend/src/app/campaign-graph-motion.ts:135-169 | when the last pass found nothing and the comparisons of the affected cards fit the pair budget, so that the pass was complete, no affected card overlaps any card |
| GraphMotions.SeparatedCardsAreApart | frontend/src/app/campaign-graph-motion.ts:145-165 | two cards moved apart no longer overlap, before the clamp to the bound, and after it if both points are within the bound |
| GraphMotions.CardsAtTheBoundCanOverlap | frontend/src/app/campaign-graph-motion.ts:145-165 | at the bound the clamp can leave them overlapping |
| GraphMotions.GraphMotion.Settle | frontend/src/app/campaign-graph-motion.ts:128-132 | terminates, and keeps the held card and the bound |
| GraphMotions.GraphMotion.Move | frontend/src/app/campaign-graph-motion.ts:59-66 | moves the held card to a valid point and wakes the draft, and ignores any other point |
| GraphMotions.GraphMotion.Integrate | frontend/src/app/campaign-graph-motion.ts:97-110 | each velocity fades, is capped and moves its card within the bound |
| GraphMotions.DampedIsCapped | frontend/src/app/campaign-graph-motion.ts:97-101 | a velocity keeps its direction, fades to 78 % of its length and is never longer than 45, for any length that grows with its vector |
| GraphMotions.GraphMotion.Spring | frontend/src/app/campaign-graph-motion.ts:70-77 | each affected card but the held one is pulled home |
| GraphMotions.SpringPointsHome | frontend/src/app/campaign-graph-motion.ts:70-77 | a spring points towards the rest place along both axes and alone would carry the card nearer without passing it |
| GraphMotions.GraphMotion.Resolve | frontend/src/app/campaign-graph-motion.ts:78-95 | one overlapping pair is pushed or moved apart and becomes affected |
| GraphMotions.PushPointsApart | frontend/src/app/campaign-graph-motion.ts:78-95 | a push points the two cards apart along the axis of the lesser overlap, by the same part of it, and moves no other and not the held one |
| EventLog.ExpiredMeansGone | internal/events/events.go:188-243 | a replay is refused if and only if an event it should contain was deleted |
| EventLog.SessionIsUpToDate | internal/events/events.go:188-243 | with appends and prunes between pages, a client that was not told to reset has received every visible event after its start up to where it read, once and in order |
| EventLog.FinishedHasEverything | internal/events/events.go:188-243 | a finished client has every visible event of the range |
| EventLog.LatestIsOfAllTime | internal/events/events.go:252-263 | the latest cursor is the highest sequence the audience was ever shown |
| EventLog.LatestNeverDecreases | internal/events/events.go:252-263 | so it never decreases, whatever is appended or pruned |
| EventLog.PruneKeepsValid | internal/maintenance/cleanup/cleanup.go:233-243 | deleting rows and raising checkpoints agree |
| EventLog.PruneKeepsNewest | internal/maintenance/cleanup/cleanup.go:233-243 | exactly the newest rows of each audience stay, as many as are to be kept |
| EventBroker.RunsKeepValid | internal/events/events.go:265-313 | over every run an open subscriber holds all it should have heard, and a closed one stopped without a gap |
| EventBroker.ReadersSeeNoGaps | internal/events/events.go:299-313 | what a reader took is what its subscription heard first: subscribers are dropped, never left with gaps |
| EventBroker.ClosedExactlyWhenFull | internal/events/events.go:292-313 | a subscriber is closed if and only if it is cancelled or an event meant for it finds its queue full; one that stays open is handed every event meant for it |
| EventBroker.Broker.Replay | internal/events/events.go:188-243 | reading at most one row past the limit gives the page, the latest cursor and whether there is more |
| EventBroker.Broker.LatestSequence | internal/events/events.go:252-263 | computes the latest cursor |
| EventBroker.Broker.Append | internal/events/events.go:154-186 | appends with the next sequence number |
| EventBroker.Broker.NotifyCommitted | internal/events/events.go:147-152 | the loop over the subscribers is one notification of all of them, in any order |
| EventBroker.Broker.PruneLogs | internal/maintenance/cleanup/cleanup.go:233-243 | does the log's prune |
| EventBroker.Broker.Subscribe | internal/events/events.go:265-290 | subscribes within the limit, for browser audiences |
| EventBroker.Broker.Cancel | internal/events/events.go:292-297 | closing twice, or after being dropped, does nothing |
| BackupArchives.InspectArchive | internal/backuparchive/restore.go:138-228 | accepts exactly the archives and manifests that keep every rule |
| BackupArchives.CheckEntries | internal/backuparchive/restore.go:199-226 | the loop with its running total accepts exactly ascending valid entries within the limit that include the database |
| BackupArchives.SmallTotalsDoNotWrap | internal/backuparchive/restore.go:215-218 | when the limit and one more file fit 64 bits the running total is within the limit if and only if the true total is |
| BackupArchives.LargeLimitsCanWrap | internal/backuparchive/types.go:54-70 | limits that a caller may set let a wrapped total pass |
| BackupArchives.TakeInventory | internal/backuparchive/restore.go:237-259 | succeeds if and only if archive files and manifest entries are in bijection |
| BackupArchives.CountingDecides | internal/backuparchive/restore.go:257-259 | comparing the two counts decides the bijection once every file is known |
| BackupArchives.ExtractArchive | internal/backuparchive/restore.go:230-303 | extraction succeeds if and only if files and entries are in bijection, hold the recorded contents and fit one tree, and yields their bytes and their modes less what the process withholds |
| BackupWriter.Create | internal/backuparchive/create.go:37-171 | publishes if and only if the files can be collected and everything stays within the limits, and then exactly their archive |
| BackupWriter.CollectFiles | internal/backuparchive/create.go:173-302 | the walks collect every regular file of a valid path that is not staging, in order, or refuse anything else, directories of the wrong shape included |
| BackupWriter.AddFiles | internal/backuparchive/create.go:118-132 | the writing loop succeeds if and only if every source can be read and the wrapping total stays within the limit |
| BackupWriter.SortSorts | internal/backuparchive/create.go:102-102 | the sources are sorted by path, and are the same sources |
| BackupWriter.DirectoryIsSound | internal/backuparchive/create.go:173-302 | what is collected from a data directory has distinct valid paths, none inside another |
| BackupWriter.PublishedIsRestoredExactly | internal/backuparchive/create.go:88-171 | the reader restores a published archive to the same paths, modes and bytes if and only if every path survives JSON, no mode is zero or has a bit that the process withholds, and the version is not too long as JSON writes it |
| BackupWriter.ModeZeroIsLost | internal/backuparchive/create.go:173-236 | a file with mode zero is collected and published under the default limits, and not restored |
| BackupWriter.MaskedModeIsLost | internal/backuparchive/restore.go:276-283 | under the mask 022 a file of mode 0666 comes back as 0644 |
| BackupWriter.UncleanPathIsLost | internal/backuparchive/create.go:173-236 | a file whose path JSON changes is published under the default limits and not restored |
| BackupWriter.UncleanVersionIsLost | internal/backuparchive/create.go:42-137 | and any backup whose version JSON makes too long |
| BackupBundles.CheckBundle | internal/backupbundle/import.go:22-94 | the checks accept exactly the good bundles: names are exactly the declared ones, each of its declared size, at most 4 GiB together, and every part matches |
| BackupBundles.Inventory | internal/backupbundle/import.go:28-42 | the first loop lists the entries by name if and only if names differ, files are regular, their number is within the bound and the wrapping total within the limit |
| BackupBundles.NotListableIsRefused | internal/backupbundle/import.go:28-42 | what it refuses, no good bundle is |
| BackupBundles.SmallSizesDoNotWrap | internal/backupbundle/import.go:28-78 | once every size is one that can be declared, the wrapping total was the true total |
| BackupBundles.ClaimedSizesCanWrap | internal/backupbundle/import.go:28-42 | without that check it does wrap: the first loop lists a bundle whose true total exceeds the limit |
| BackupBundles.CheckedIsGood | internal/backupbundle/import.go:28-94 | what passed every check is a good bundle |
| BackupBundles.Validate | internal/backupbundle/bundle.go:127-173 | the loops accept exactly the valid manifests |
| BackupBundles.PathsDiffer | internal/backupbundle/bundle.go:90-104 | no two declared names collide unless they are one content |
| WriteProtocol.StepKeepsValid | frontend/src/app/campaign-write-controller.ts:92-156 | the invariant holds at every suspension point of every interleaving of requests, aborts, reconnects and other lease holders |
| WriteProtocol.RunsKeepValid | frontend/src/app/campaign-write-controller.ts:92-156 | and over every run |
| WriteProtocol.AnswersAreFinal | frontend/src/app/campaign-write-controller.ts:92-103 | a request is never answered twice and no answer is taken back |
| WriteProtocol.TurnsProgress | frontend/src/app/campaign-write-controller.ts:105-156 | every step of a turn brings the queue closer to having answered everyone |
| WriteProtocol.NeverStuck | frontend/src/app/campaign-write-controller.ts:92-103 | a request without an answer, or one before it, can always take its next step |
| WriteProtocol.StartsInRequestOrder | frontend/src/app/campaign-write-controller.ts:92-103 | turns of one connection start in request order, each after the one before has finished |
| WriteProtocol.OneWriteAtATime | frontend/src/app/campaign-write-controller.ts:112-127 | at most one write holds its lease |
| WriteProtocol.LeaseIsReleased | frontend/src/app/campaign-write-controller.ts:153-155 | a finished turn holds nothing |
| WriteProtocol.SavedMeansShown | frontend/src/app/campaign-write-controller.ts:159-211 | an answer that reports success with a receipt shows every confirmed change at or past its revision |
| WriteProtocol.AnswersTellTheWrite | frontend/src/app/campaign-write-controller.ts:105-156 | over every run, a save is answered only if the write succeeded with that receipt, a failure only if it threw, a refusal only if it never began, and what is not shown or overwritten was written |
| WriteProtocol.AnswersHaveReasons | frontend/src/app/campaign-write-controller.ts:105-187 | which answer a step gives: a write that succeeded is answered as saved if and only if the connection stands, every confirmed change and the target are shown and the receipt's check is fine; a turn that starts is refused exactly for the reasons of the source |
| WriteController.BusyLeases.Release | frontend/src/app/busy-lease.ts:26-35 | releasing twice, or after a clear, changes nothing and tells nobody |
| WriteController.CampaignWriteController.Enqueue | frontend/src/app/campaign-write-controller.ts:92-103 | takes the protocol's step |
| WriteController.CampaignWriteController.StartTurn | frontend/src/app/campaign-write-controller.ts:105-127 | takes the protocol's step |
| WriteController.CampaignWriteController.WriteSettled | frontend/src/app/campaign-write-controller.ts:129-155 | takes the protocol's step, whether the write succeeded, failed or was aborted |
| WriteController.CampaignWriteController.LoadSettled | frontend/src/app/campaign-write-controller.ts:135-155 | takes the protocol's step |
| EditHandoffs.RunsKeepValid | frontend/src/addons/edit-state.ts:55-156 | over every run with at most one open view of a slot, each waiting or inherited draft is the last checkpoint of the view that left it |
| EditHandoffs.OfferedDraft | frontend/src/addons/edit-state.ts:87-108 | what waits is the last checkpoint of a view that ended with something to save, and every view since gave it back |
| EditHandoffs.EndingLeavesDraft | frontend/src/addons/edit-state.ts:87-108 | a view that a reload or update ends while dirty, saving or unclaimed leaves its last checkpoint, and no other view does |
| EditHandoffs.FailedMountRestores | frontend/src/addons/edit-state.ts:87-92 | a failed mount restores what it inherited |
| EditHandoffs.TakenAtMostOnce | frontend/src/addons/edit-state.ts:130-137 | a mount takes its draft at most once, and it is the inherited one |
| EditHandoffs.BrowserContributionEdits.Open | frontend/src/addons/edit-state.ts:69-112 | does the protocol's step |
| EditHandoffs.BrowserContributionEdits.Dispose | frontend/src/addons/edit-state.ts:86-108 | does the protocol's step, and nothing the second time |
| EditHandoffs.BrowserContributionEdits.EditState | frontend/src/addons/edit-state.ts:145-156 | dirty exactly while a draft waits or is unclaimed, or a view is dirty that leaving would not keep |

## Left out

- StagedRestore.DataDirectory.Stage: a write error of the journal, after which the file is removed again, is not modelled; any other error of the operating system counts as a stop; what lies below the top-level entries of a directory is one value, and the migrations are the given database.
- StagedRestore.DataDirectory.Conclude: what validation makes of the database files is given for each start; a crash in its midst counts as a validation that does not accept.
- Iteration over maps and directories is in any order; the theorems hold for every order.
- GenerationProtocol.Step: stop reasons, the failures of disposers and late failures after a cancelled activation are not modelled, nor is the normalisation of descriptors apart from the sort.
- SessionProtocol.Step: request tokens against cross-site forgery are compared only where a password changes; key derivation and the digest of tokens are identities.
- CampaignRecords.OverwritesCommit: the order of the keys of a JSON object is not modelled, and numbers are reals.
- CampaignRecords.Commit: what the server itself adds to a record it writes, such as the time, the summary of its last change and the managed twin field, is not modelled, nor is what a player's view hides.
- Relationships.PlanCommits: is about the requests of a DM and the relationships among them, the character's own change being accepted; a relationship is taken to carry no `linkedTwinId`, which the server never gives one, the size of a stamped record and of the request body is the parameter `fits`, the stored settings are taken to be well-formed, and field names that differ from the ones used only in case do not occur.
- Relationships.PrepareRelationshipMutations: the relationship types the editor offers are a parameter, and the shapes of the rows are given by their type; the comparison with the reviewed set of relationships that comes before it is not modelled.
- RecordPatches.PrepareCharacterPatch: patches of other collections, where owner, parent and session fields write further keys, are not modelled; how location roles and questions are normalised is a parameter.
- Timeline.MoveIsExact: the session of a column is a number that was checked before.
- UpdateAll.UpdateAll: cancelling a batch by its abort signal is not modelled.
- GraphMotions.GraphMotion.Step: edges and their control points are left out, so whether a step was quiet is a parameter; the length of a velocity is a parameter; arithmetic is exact; cards with equal left edges keep their order instead of being ordered by key.
- EventBroker.Broker.Replay: errors of the database, event metadata and times, and the transport to the browser are left out; subscriber numbers do not wrap.
- BackupArchives.InspectArchive: ZIP and JSON decoding, SHA-256 and the check for control characters are parameters; that a path is clean follows from the checks of its parts.
- BackupWriter.ModeZeroIsLost: that the host may read such a file, as a privileged process may, is taken for granted, as reading is in general.
- BackupWriter.Create: the database image and the validation of packages are given; the roots of the two directories are real directories.
- BackupBundles.CheckBundle: only the checks before anything is stored; importing objects and points follows them.
- WriteProtocol.Step: what the handlers write, how they describe failures, and the refresh after a failure are left out; the receipt's own check of its target is a truth value.
- EditHandoffs.Perform: parsing of what an add-on reports about its edit is left out.
- Authentication against cross-site requests, settings saves, localisation, rendering, layout and the Lit components would add easier members only.
